/** The PE32+ writer: sections at their pages, base relocations grouped by page. */
module PeImages {
  import opened Sorting
  import opened Objects
  import opened ObjectFiles
  import opened Relocations

  // ----- Relocation sites -----

  predicate Sized(a: Artifact) {
    && |a.sections| == 3 && 0 < |a.sections[0]| && (forall j :: 0 <= j < 3 ==> |a.sections[j]| <= MAX_SECTION)
    && a.entry < |a.sections[0]| && |a.bases| <= MAX_RELOCS
  }

  function LayoutFor(a: Artifact): Layout
    requires Sized(a)
  {
    LayoutOf(|a.sections[0]|, |a.sections[1]|, |a.sections[2]|).value
  }

  /** An absolute site lies in its section with all eight bytes. */
  predicate SiteIn(a: Artifact, k: nat)
    requires Sized(a) && k < |a.bases|
  {
    1 <= a.bases[k].0 <= 3 && a.bases[k].1 + 8 <= |a.sections[a.bases[k].0 - 1]|
  }

  predicate SitesIn(a: Artifact)
    requires Sized(a)
  {
    forall k: nat :: k < |a.bases| ==> SiteIn(a, k)
  }

  /** The addresses the loader must adjust: the writer's own anchor and the artifact's sites. */
  function Rvas(a: Artifact): seq<nat>
    requires Sized(a) && SitesIn(a)
  {
    [LayoutFor(a).rdata] + seq(|a.bases|, k requires 0 <= k < |a.bases| => RvaOf(a, k))
  }

  function RvaOf(a: Artifact, k: nat): nat
    requires Sized(a) && SitesIn(a) && k < |a.bases|
  {
    assert SiteIn(a, k);
    Rva(LayoutFor(a), a.bases[k].0) + a.bases[k].1
  }

  predicate UpTo(x: nat, y: nat) {
    x <= y
  }

  function Sites(a: Artifact): seq<nat>
    requires Sized(a) && SitesIn(a)
  {
    Sort(Rvas(a), UpTo)
  }

  predicate Spaced(rs: seq<nat>) {
    forall i :: 0 < i < |rs| ==> rs[i - 1] + 8 <= rs[i]
  }

  predicate Packable(a: Artifact) {
    Sized(a) && SitesIn(a) && Spaced(Sites(a))
  }

  lemma SpacedApart(rs: seq<nat>, i: nat, j: nat)
    requires Spaced(rs) && i < j < |rs|
    ensures rs[i] + 8 <= rs[j]
    decreases j
  {
    if i < j - 1 {
      SpacedApart(rs, i, j - 1);
    }
  }

  /** The sites are the anchor and those of the artifact, each once and in order. */
  lemma SitesAre(a: Artifact)
    requires Packable(a)
    ensures multiset(Sites(a)) == multiset(Rvas(a)) && |Sites(a)| == |a.bases| + 1
    ensures forall i, j :: 0 <= i < j < |Sites(a)| ==> Sites(a)[i] + 8 <= Sites(a)[j]
  {
    SortSorts(Rvas(a), UpTo);
    forall i, j | 0 <= i < j < |Sites(a)|
      ensures Sites(a)[i] + 8 <= Sites(a)[j]
    {
      SpacedApart(Sites(a), i, j);
    }
  }

  // ----- The relocation table -----

  function PageOf(r: nat): nat {
    r / 4096 * 4096
  }

  /** How many sites at the front are on the page. */
  function Run(rs: seq<nat>, page: nat): (n: nat)
    ensures n <= |rs|
    ensures forall i :: 0 <= i < n ==> PageOf(rs[i]) == page
    ensures n < |rs| ==> PageOf(rs[n]) != page
  {
    if rs == [] || PageOf(rs[0]) != page then 0 else 1 + Run(rs[1..], page)
  }

  function BlockSize(n: nat): (size: nat)
    ensures 8 + 2 * n <= size < 12 + 2 * n && size % 4 == 0
  {
    (8 + 2 * n + 3) / 4 * 4
  }

  function WordBytes(x: nat): (b: Bytes)
    ensures |b| == 4
  {
    [x % 0x100, x / 0x100 % 0x100, x / 0x100 / 0x100 % 0x100, x / 0x100 / 0x100 / 0x100 % 0x100]
  }

  /** Type 10 and the offset in the page. */
  function Entry(r: nat): Bytes {
    [(0xa000 + r % 4096) % 0x100, (0xa000 + r % 4096) / 0x100]
  }

  function Entries(rs: seq<nat>): (b: Bytes)
    ensures |b| == 2 * |rs|
  {
    if rs == [] then [] else Entry(rs[0]) + Entries(rs[1..])
  }

  function Padding(n: nat): (b: Bytes)
    ensures |b| + 8 + 2 * n == BlockSize(n)
  {
    if n % 2 == 0 then [] else [0, 0]
  }

  /** Page, size, entries, and padding to a multiple of four. */
  function Block(rs: seq<nat>): (b: Bytes)
    requires rs != []
    ensures |b| == BlockSize(|rs|)
  {
    WordBytes(PageOf(rs[0])) + (WordBytes(BlockSize(|rs|)) + (Entries(rs) + Padding(|rs|)))
  }

  function Table(rs: seq<nat>): Bytes
    decreases |rs|
  {
    if rs == [] then []
    else
      var n := Run(rs, PageOf(rs[0]));
      Block(rs[..n]) + Table(rs[n..])
  }

  lemma {:induction false} TableIsSmall(rs: seq<nat>)
    ensures |Table(rs)| <= 12 * |rs| && (rs != [] ==> Table(rs) != [])
    decreases |rs|
  {
    hide Block, PageOf;
    if rs != [] {
      var n := Run(rs, PageOf(rs[0]));
      TableIsSmall(rs[n..]);
    }
  }

  /** The end of the run of sites on one page, as the writer finds it. */
  method RunEnd(rs: seq<nat>, i: nat) returns (end: nat)
    requires i < |rs|
    ensures end == i + Run(rs[i..], PageOf(rs[i])) && i < end <= |rs|
  {
    end := i + 1;
    assert rs[i..][1..] == rs[i + 1..];
    while end < |rs| && PageOf(rs[end]) == PageOf(rs[i])
      invariant i < end <= |rs|
      invariant Run(rs[i..], PageOf(rs[i])) == end - i + Run(rs[end..], PageOf(rs[i]))
    {
      assert rs[end..][1..] == rs[end + 1..];
      end := end + 1;
    }
  }

  lemma TableStep(rs: seq<nat>, i: nat, end: nat)
    requires i < |rs| && end == i + Run(rs[i..], PageOf(rs[i])) && i < end <= |rs|
    ensures Table(rs[i..]) == Block(rs[i..end]) + Table(rs[end..])
  {
    hide Block, PageOf, Run;
    var n := end - i;
    assert rs[i..][..n] == rs[i..end] && rs[i..][n..] == rs[end..];
  }

  /** The first pass only adds up sizes. */
  method TableSize(rs: seq<nat>) returns (size: nat)
    ensures size == |Table(rs)|
  {
    hide Table, Block, BlockSize;
    size := 0;
    var i := 0;
    assert rs[0..] == rs;
    while i < |rs|
      invariant 0 <= i <= |rs| && size + |Table(rs[i..])| == |Table(rs)|
    {
      var end := RunEnd(rs, i);
      TableStep(rs, i, end);
      size := size + BlockSize(end - i);
      i := end;
    }
    NoTable(rs[i..]);
  }

  lemma NoTable(rs: seq<nat>)
    requires rs == []
    ensures Table(rs) == []
  {
  }

  /** The second pass writes block after block. */
  method PutTable(b: array<Byte>, at: nat, rs: seq<nat>)
    requires at + |Table(rs)| <= b.Length
    modifies b
    ensures Holds(b[..], at, Table(rs)) && Apart(b[..], old(b[..]), at, at + |Table(rs)|)
  {
    hide Table, Block, BlockSize;
    var i, p := 0, at;
    ghost var done: Bytes := [];
    assert rs[0..] == rs && [] + Table(rs) == Table(rs);
    while i < |rs|
      invariant 0 <= i <= |rs| && p == at + |done| && done + Table(rs[i..]) == Table(rs)
      invariant Holds(b[..], at, done) && Apart(b[..], old(b[..]), at, p)
    {
      var end := RunEnd(rs, i);
      ghost var was := b[..];
      TableStep(rs, i, end);
      assert done + (Block(rs[i..end]) + Table(rs[end..])) == done + Block(rs[i..end]) + Table(rs[end..]);
      assert |done + Block(rs[i..end])| <= |Table(rs)|;
      PutBytes(b, p, Block(rs[i..end]));
      HoldsMore(b[..], was, at, done, Block(rs[i..end]));
      done := done + Block(rs[i..end]);
      p := p + BlockSize(end - i);
      i := end;
    }
    NoTable(rs[i..]);
    assert done + [] == done;
  }

  lemma HoldsMore(a: Bytes, b: Bytes, at: nat, s: Bytes, t: Bytes)
    requires Holds(b, at, s) && Holds(a, at + |s|, t) && Apart(a, b, at + |s|, at + |s| + |t|)
    ensures Holds(a, at, s + t)
  {
    HoldsKept(a, b, at + |s|, at + |s| + |t|, at, s);
    assert a[at..at + |s| + |t|] == a[at..at + |s|] + a[at + |s|..at + |s| + |t|];
  }

  // ----- The file -----

  function Raw512(n: nat): (r: nat)
    ensures n <= r < n + 512
  {
    Multiple(n, 512)
  }

  /** Positions and sizes in the file. */
  datatype Frame = Frame(entry: nat, text: nat, rdata: nat, data: nat, reloc: nat, layout: Layout)
  {
    function RdataAt(): nat { 1024 + Raw512(text) }
    function DataAt(): nat { RdataAt() + Raw512(rdata) }
    function RelocAt(): nat { DataAt() + Raw512(data) }
    function Size(): nat { RelocAt() + Raw512(reloc) }
    function Image(): nat { Pages(layout.reloc + reloc) }
  }

  function FrameOf(a: Artifact): Frame
    requires Packable(a)
  {
    Frame(a.entry, |a.sections[0]|, 8 + |a.sections[1]|, if |a.sections[2]| > 0 then |a.sections[2]| else 8,
          |Table(Sites(a))|, LayoutFor(a))
  }

  /** From the signature to the optional header, by 32-bit words. */
  function HeadWords(f: Frame): seq<nat> {
    [0x4550, 0x8664 + 4 * 0x1_0000, 0, 0, 0, 240 + 0x2022 * 0x1_0000]
  }

  function OptionalWords(f: Frame): seq<nat> {
    [0x20b, Raw512(f.text), Raw512(f.rdata) + Raw512(f.data) + Raw512(f.reloc), 0, 4096 + f.entry, 4096,
     0x4000_0000, 1, 4096, 512, 6, 0, 6, 0, f.Image(), 1024, 0, 10 + 0x160 * 0x1_0000,
     0x10_0000, 0, 0x1000, 0, 0x10_0000, 0, 0x1000, 0, 0, 16]
  }

  /** Sixteen data directories, of which only the fifth is used. */
  function DirectoryWords(f: Frame): seq<nat> {
    [0, 0, 0, 0, 0, 0, 0, 0, 0, 0, f.layout.reloc, f.reloc, 0, 0, 0, 0, 0, 0, 0, 0, 0, 0, 0, 0, 0, 0, 0, 0, 0, 0, 0, 0]
  }

  function SectionHeader(f: Frame, j: nat): seq<nat> {
    if j == 0 then [0x7865_742e, 0x74, f.text, f.layout.text, Raw512(f.text), 1024, 0, 0, 0, 0x6000_0020]
    else if j == 1 then [0x6164_722e, 0x6174, f.rdata, f.layout.rdata, Raw512(f.rdata), f.RdataAt(), 0, 0, 0, 0x4000_0040]
    else if j == 2 then [0x7461_642e, 0x61, f.data, f.layout.data, Raw512(f.data), f.DataAt(), 0, 0, 0, 0xc000_0040]
    else [0x6c65_722e, 0x636f, f.reloc, f.layout.reloc, Raw512(f.reloc), f.RelocAt(), 0, 0, 0, 0x4200_0040]
  }

  function Anchor(f: Frame): nat {
    IMAGE_BASE + 4096 + f.entry
  }

  ghost predicate HeadersAre(b: Bytes, f: Frame) {
    && Holds(b, 0, [77, 90]) && U32(b, 60) == 128 && WordsAt(b, 128, HeadWords(f)) && WordsAt(b, 152, OptionalWords(f))
    && WordsAt(b, 264, DirectoryWords(f)) && (forall j: nat :: j < 4 ==> WordsAt(b, 392 + 40 * j, SectionHeader(f, j)))
  }

  /** b is the file of the artifact: headers, anchor, sections and table in place, zeros between. */
  ghost predicate IsImage(b: Bytes, a: Artifact)
    requires Packable(a)
  {
    var f := FrameOf(a);
    && |b| == f.Size() && HeadersAre(b, f)
    && Zero(b, 2, 60) && Zero(b, 64, 128) && Zero(b, 552, 1024)
    && Holds(b, 1024, a.sections[0]) && Zero(b, 1024 + f.text, f.RdataAt())
    && U64(b, f.RdataAt()) == Anchor(f) && Holds(b, f.RdataAt() + 8, a.sections[1]) && Zero(b, f.RdataAt() + f.rdata, f.DataAt())
    && Holds(b, f.DataAt(), a.sections[2]) && Zero(b, f.DataAt() + |a.sections[2]|, f.RelocAt())
    && Holds(b, f.RelocAt(), Table(Sites(a))) && Zero(b, f.RelocAt() + f.reloc, f.Size())
  }

  lemma FrameFits(a: Artifact)
    requires Packable(a)
    ensures var f := FrameOf(a);
            && f.reloc <= 12 * 1048577 && 0 < f.reloc
            && f.layout.text + f.text <= f.layout.rdata && f.layout.rdata + f.rdata <= f.layout.data
            && f.layout.data + f.data <= f.layout.reloc && f.layout.reloc + f.reloc <= f.Image() <= 64 * 1024 * 1024
            && f.layout.text == 4096 && f.layout.rdata == Pages(4096 + f.text)
            && f.layout.data == Pages(f.layout.rdata + f.rdata) && f.layout.reloc == Pages(f.layout.data + f.data)
            && 1024 + f.text <= f.RdataAt() && f.RdataAt() + f.rdata <= f.DataAt() && f.DataAt() + f.data <= f.RelocAt()
            && f.RelocAt() + f.reloc <= f.Size() < W32
  {
    hide Pages, Raw512;
    SitesAre(a);
    TableIsSmall(Sites(a));
  }

  /** One of the stores that fill the file. */
  datatype Piece = Piece(at: nat, bytes: Bytes)
  {
    function End(): nat { at + |bytes| }
  }

  predicate Ascending(ps: seq<Piece>) {
    forall i, j :: 0 <= i < j < |ps| ==> ps[i].End() <= ps[j].at
  }

  predicate Outside(ps: seq<Piece>, i: nat) {
    forall k :: 0 <= k < |ps| ==> !(ps[k].at <= i < ps[k].End())
  }

  /** Stores at ascending places into a cleared buffer: each stays, and all else is zero. */
  method PutAll(b: array<Byte>, ps: seq<Piece>)
    requires Ascending(ps) && (forall k :: 0 <= k < |ps| ==> ps[k].End() <= b.Length)
    requires forall i :: 0 <= i < b.Length ==> b[i] == 0
    modifies b
    ensures forall k :: 0 <= k < |ps| ==> Holds(b[..], ps[k].at, ps[k].bytes)
    ensures forall i :: 0 <= i < b.Length && Outside(ps, i) ==> b[i] == 0
  {
    var k := 0;
    while k < |ps|
      invariant 0 <= k <= |ps|
      invariant forall i :: 0 <= i < k ==> Holds(b[..], ps[i].at, ps[i].bytes)
      invariant forall i :: 0 <= i < b.Length && Outside(ps, i) ==> b[i] == 0
    {
      ghost var was := b[..];
      PutBytes(b, ps[k].at, ps[k].bytes);
      forall i | 0 <= i < k
        ensures Holds(b[..], ps[i].at, ps[i].bytes)
      {
        HoldsKept(b[..], was, ps[k].at, ps[k].End(), ps[i].at, ps[i].bytes);
      }
      k := k + 1;
    }
  }

  function Packed(ws: seq<nat>): (b: Bytes)
    ensures |b| == 4 * |ws|
  {
    if ws == [] then [] else WordBytes(ws[0]) + Packed(ws[1..])
  }

  lemma WordIs(x: nat)
    requires x < W32
    ensures U32(WordBytes(x), 0) == x
  {
    var y := x / 0x100;
    var z := y / 0x100;
    assert z / 0x100 < 0x100;
    FourBytes(WordBytes(x), 0);
    NumberOfFour(x % 0x100, y % 0x100, z % 0x100, z / 0x100 % 0x100);
  }

  lemma {:induction false} PackedWords(b: Bytes, at: nat, ws: seq<nat>)
    requires Holds(b, at, Packed(ws)) && forall k :: 0 <= k < |ws| ==> ws[k] < W32
    ensures WordsAt(b, at, ws)
    decreases |ws|
  {
    hide WordBytes;
    if ws != [] {
      var s := Packed(ws);
      assert s[4..] == Packed(ws[1..]) && s[..4] == WordBytes(ws[0]);
      assert b[at + 4..at + 4 * |ws|] == s[4..] && b[at..at + 4] == s[..4];
      PackedWords(b, at + 4, ws[1..]);
      WordIs(ws[0]);
      SliceWord(b, at, WordBytes(ws[0]));
      forall k | 0 <= k < |ws|
        ensures U32(b, at + 4 * k) == ws[k]
      {
        if k > 0 {
          assert U32(b, at + 4 + 4 * (k - 1)) == ws[1..][k - 1];
        }
      }
    }
  }

  lemma SliceWord(b: Bytes, at: nat, w: Bytes)
    requires |w| == 4 && Holds(b, at, w)
    ensures U32(b, at) == U32(w, 0)
  {
    assert w[0..4] == w;
  }

  // ----- Building the file -----

  function PiecesOf(a: Artifact, f: Frame): seq<Piece>
    requires |a.sections| == 3
  {
    [Piece(0, [77, 90]), Piece(60, WordBytes(128)), Piece(128, Packed(HeadWords(f))), Piece(152, Packed(OptionalWords(f))),
     Piece(264, Packed(DirectoryWords(f))), Piece(392, Packed(SectionHeader(f, 0))), Piece(432, Packed(SectionHeader(f, 1))),
     Piece(472, Packed(SectionHeader(f, 2))), Piece(512, Packed(SectionHeader(f, 3))), Piece(1024, a.sections[0]),
     Piece(f.RdataAt(), Packed([Low(Anchor(f)), High(Anchor(f))])), Piece(f.RdataAt() + 8, a.sections[1]),
     Piece(f.DataAt(), a.sections[2])]
  }

  predicate Follows(ps: seq<Piece>, k: nat) {
    k + 1 < |ps| ==> ps[k].End() <= ps[k + 1].at
  }

  lemma InOrder(ps: seq<Piece>, i: nat, j: nat)
    requires (forall k: nat :: Follows(ps, k)) && i < j < |ps|
    ensures ps[i].End() <= ps[j].at
    decreases j
  {
    assert Follows(ps, j - 1);
    if i < j - 1 {
      InOrder(ps, i, j - 1);
    }
  }

  lemma PiecesAscend(a: Artifact)
    requires Packable(a)
    ensures Ascending(PiecesOf(a, FrameOf(a))) && |PiecesOf(a, FrameOf(a))| == 13
    ensures forall k :: 0 <= k < 13 ==> PiecesOf(a, FrameOf(a))[k].End() <= FrameOf(a).RelocAt()
  {
    var ps := PiecesOf(a, FrameOf(a));
    PiecesFollow(a);
    forall i, j | 0 <= i < j < |ps|
      ensures ps[i].End() <= ps[j].at
    {
      InOrder(ps, i, j);
    }
    LastPiece(a);
  }

  lemma PiecesFollow(a: Artifact)
    requires Packable(a)
    ensures forall k: nat :: Follows(PiecesOf(a, FrameOf(a)), k)
  {
    hide Packed, Raw512, Pages, FrameOf, WordBytes;
    FrameFits(a);
    FrameSizes(a);
  }

  lemma FrameSizes(a: Artifact)
    requires Packable(a)
    ensures FrameOf(a).text == |a.sections[0]| && FrameOf(a).rdata == 8 + |a.sections[1]| && |a.sections[2]| <= FrameOf(a).data
    ensures FrameOf(a).reloc == |Table(Sites(a))| && FrameOf(a).entry == a.entry < FrameOf(a).text
  {
  }

  lemma LastPiece(a: Artifact)
    requires Packable(a) && Ascending(PiecesOf(a, FrameOf(a)))
    ensures forall k :: 0 <= k < 13 ==> PiecesOf(a, FrameOf(a))[k].End() <= FrameOf(a).RelocAt()
  {
    hide Packed, Raw512, Pages, FrameOf;
    FrameFits(a);
    FrameSizes(a);
    var ps := PiecesOf(a, FrameOf(a));
    assert ps[12].End() <= FrameOf(a).RelocAt();
    forall k | 0 <= k < 13
      ensures ps[k].End() <= FrameOf(a).RelocAt()
    {
      assert k < 12 ==> ps[k].End() <= ps[12].at;
    }
  }

  /** Between two neighbouring pieces, and behind the last, nothing was stored. */
  lemma Gap(b: Bytes, ps: seq<Piece>, k: nat, high: nat)
    requires Ascending(ps) && k < |ps| && ps[k].End() <= high <= |b| && (k + 1 < |ps| ==> high <= ps[k + 1].at)
    requires forall i :: 0 <= i < |b| && Outside(ps, i) ==> b[i] == 0
    ensures Zero(b, ps[k].End(), high)
  {
    forall i | ps[k].End() <= i < high
      ensures b[i] == 0
    {
      forall j | 0 <= j < |ps|
        ensures !(ps[j].at <= i < ps[j].End())
      {
        if j < k {
          assert ps[j].End() <= ps[k].at;
        } else if j > k + 1 {
          assert ps[k + 1].End() <= ps[j].at;
        }
      }
      assert Outside(ps, i);
    }
  }

  /** All but the relocation table. */
  ghost predicate IsFilled(b: Bytes, a: Artifact)
    requires Packable(a)
  {
    var f := FrameOf(a);
    && |b| == f.Size() && HeadersAre(b, f)
    && Zero(b, 2, 60) && Zero(b, 64, 128) && Zero(b, 552, 1024)
    && Holds(b, 1024, a.sections[0]) && Zero(b, 1024 + f.text, f.RdataAt())
    && U64(b, f.RdataAt()) == Anchor(f) && Holds(b, f.RdataAt() + 8, a.sections[1]) && Zero(b, f.RdataAt() + f.rdata, f.DataAt())
    && Holds(b, f.DataAt(), a.sections[2]) && Zero(b, f.DataAt() + |a.sections[2]|, f.Size())
  }

  /** Every field fits its word. */
  predicate Small(f: Frame) {
    && f.entry < 0x1000_0000 && f.text < 0x1000_0000 && f.rdata < 0x1000_0000 && f.data < 0x1000_0000 && f.reloc < 0x1000_0000
    && f.layout.text < W32 && f.layout.rdata < W32 && f.layout.data < W32 && f.layout.reloc < W32 && f.Image() < W32
  }

  lemma FrameIsSmall(a: Artifact)
    requires Packable(a)
    ensures Small(FrameOf(a))
  {
    hide Raw512, Pages, FrameOf;
    FrameFits(a);
    FrameSizes(a);
  }

  lemma RawIsSmall(n: nat)
    requires n < 0x1000_0000
    ensures Raw512(n) < 0x1000_0200
  {
  }

  lemma OptionalFits(f: Frame)
    requires Small(f)
    ensures |OptionalWords(f)| == 28 && (forall k :: 0 <= k < 28 ==> OptionalWords(f)[k] < W32) && Anchor(f) < W64
  {
    hide Raw512, Pages;
    RawIsSmall(f.text);
    RawIsSmall(f.rdata);
    RawIsSmall(f.data);
    RawIsSmall(f.reloc);
  }

  lemma DirectoriesFit(f: Frame)
    requires Small(f)
    ensures |DirectoryWords(f)| == 32 && forall k :: 0 <= k < 32 ==> DirectoryWords(f)[k] < W32
  {
    hide Pages;
  }

  lemma HeadersFit(f: Frame, j: nat)
    requires Small(f) && j < 4
    ensures |SectionHeader(f, j)| == 10 && forall k :: 0 <= k < 10 ==> SectionHeader(f, j)[k] < W32
  {
    hide Raw512, Pages;
    RawIsSmall(f.text);
    RawIsSmall(f.rdata);
    RawIsSmall(f.data);
    RawIsSmall(f.reloc);
  }

  lemma HeadersFilled(b: Bytes, a: Artifact)
    requires Packable(a)
    requires var ps := PiecesOf(a, FrameOf(a)); forall k :: 0 <= k < 13 ==> Holds(b, ps[k].at, ps[k].bytes)
    ensures HeadersAre(b, FrameOf(a)) && U64(b, FrameOf(a).RdataAt()) == Anchor(FrameOf(a))
  {
    hide Packed, WordBytes, U32, FrameOf, WordsAt, SitesIn, Spaced, Raw512;
    var f := FrameOf(a);
    var ps := PiecesOf(a, f);
    FrameIsSmall(a);
    OptionalFits(f);
    DirectoriesFit(f);
    assert Holds(b, ps[0].at, ps[0].bytes);
    assert Holds(b, ps[1].at, ps[1].bytes);
    WordIs(128);
    SliceWord(b, 60, WordBytes(128));
    assert Holds(b, ps[2].at, ps[2].bytes);
    PackedWords(b, 128, HeadWords(f));
    assert Holds(b, ps[3].at, ps[3].bytes);
    PackedWords(b, 152, OptionalWords(f));
    assert Holds(b, ps[4].at, ps[4].bytes);
    PackedWords(b, 264, DirectoryWords(f));
    forall j: nat | j < 4
      ensures WordsAt(b, 392 + 40 * j, SectionHeader(f, j))
    {
      HeadersFit(f, j);
      assert Holds(b, ps[5 + j].at, ps[5 + j].bytes);
      PackedWords(b, 392 + 40 * j, SectionHeader(f, j));
    }
    assert Holds(b, ps[10].at, ps[10].bytes);
    AnchorFilled(b, f.RdataAt(), Anchor(f));
  }

  lemma AnchorFilled(b: Bytes, at: nat, v: nat)
    requires Holds(b, at, Packed([Low(v), High(v)])) && v < W64
    ensures U64(b, at) == v
  {
    hide Packed, U32;
    var ws := [Low(v), High(v)];
    PackedWords(b, at, ws);
    assert U32(b, at + 4 * 0) == ws[0] && U32(b, at + 4 * 1) == ws[1];
    Halves(b, at, v);
  }

  lemma Filled(b: Bytes, a: Artifact)
    requires Packable(a) && |b| == FrameOf(a).Size()
    requires var ps := PiecesOf(a, FrameOf(a));
             && (forall k :: 0 <= k < 13 ==> Holds(b, ps[k].at, ps[k].bytes))
             && (forall i :: 0 <= i < |b| && Outside(ps, i) ==> b[i] == 0)
    ensures IsFilled(b, a)
  {
    hide Packed, U32, U64, FrameOf, HeadersAre, SitesIn, Spaced, Raw512, Outside, WordBytes;
    var ps := PiecesOf(a, FrameOf(a));
    PiecesAscend(a);
    FrameFits(a);
    FrameSizes(a);
    HeadersFilled(b, a);
    Gap(b, ps, 0, 60);
    Gap(b, ps, 1, 128);
    Gap(b, ps, 8, 1024);
    Gap(b, ps, 9, FrameOf(a).RdataAt());
    Gap(b, ps, 11, FrameOf(a).DataAt());
    Gap(b, ps, 12, FrameOf(a).Size());
    assert Holds(b, ps[9].at, ps[9].bytes) && Holds(b, ps[11].at, ps[11].bytes) && Holds(b, ps[12].at, ps[12].bytes);
  }

  lemma TablePlaced(b: Bytes, was: Bytes, a: Artifact)
    requires Packable(a) && IsFilled(was, a) && Holds(b, FrameOf(a).RelocAt(), Table(Sites(a)))
    requires Apart(b, was, FrameOf(a).RelocAt(), FrameOf(a).RelocAt() + |Table(Sites(a))|)
    ensures IsImage(b, a)
  {
    hide U32, FrameOf, SitesIn, Spaced, Raw512, HeadersAre, Table, Holds, Zero, Apart;
    var f := FrameOf(a);
    var from, to := f.RelocAt(), f.RelocAt() + f.reloc;
    FrameFits(a);
    FrameSizes(a);
    HeadersKept(b, was, f, from, to);
    U32Kept(b, was, from, to, f.RdataAt());
    U32Kept(b, was, from, to, f.RdataAt() + 4);
    HoldsKept(b, was, from, to, 1024, a.sections[0]);
    HoldsKept(b, was, from, to, f.RdataAt() + 8, a.sections[1]);
    HoldsKept(b, was, from, to, f.DataAt(), a.sections[2]);
    ZeroKept(b, was, from, to, 2, 60);
    ZeroKept(b, was, from, to, 64, 128);
    ZeroKept(b, was, from, to, 552, 1024);
    ZeroKept(b, was, from, to, 1024 + f.text, f.RdataAt());
    ZeroKept(b, was, from, to, f.RdataAt() + f.rdata, f.DataAt());
    ZeroAround(b, was, from, to, f.DataAt() + |a.sections[2]|, f.Size());
  }

  lemma ZeroAround(a: Bytes, b: Bytes, from: nat, to: nat, low: nat, high: nat)
    requires Apart(a, b, from, to) && Zero(b, low, high) && low <= from <= to <= high
    ensures |a| == |b| && Zero(a, low, from) && Zero(a, to, high)
  {
  }

  lemma HeadersKept(b: Bytes, was: Bytes, f: Frame, from: nat, to: nat)
    requires HeadersAre(was, f) && 1024 <= from && Apart(b, was, from, to)
    ensures HeadersAre(b, f)
  {
    hide U32, HeadWords, OptionalWords, DirectoryWords, SectionHeader;
    HoldsKept(b, was, from, to, 0, [77, 90]);
    forall at: nat | at <= 1020
      ensures U32(b, at) == U32(was, at)
    {
      U32Kept(b, was, from, to, at);
    }
    WordCounts(f);
  }

  lemma WordCounts(f: Frame)
    ensures |HeadWords(f)| == 6 && |OptionalWords(f)| == 28 && |DirectoryWords(f)| == 32
    ensures forall j: nat :: j < 4 ==> |SectionHeader(f, j)| == 10
  {
  }

  method CollectRvas(a: Artifact) returns (r: Option<seq<nat>>)
    requires Sized(a)
    ensures if SitesIn(a) then r == Some(Rvas(a)) else r.None?
  {
    var l, rs, k := LayoutFor(a), [LayoutFor(a).rdata], 0;
    while k < |a.bases|
      invariant 0 <= k <= |a.bases| && |rs| == k + 1 && rs[0] == l.rdata
      invariant forall i: nat :: i < k ==> SiteIn(a, i) && rs[i + 1] == Rva(l, a.bases[i].0) + a.bases[i].1
    {
      if !SiteIn(a, k) {
        return None;
      }
      rs := rs + [Rva(l, a.bases[k].0) + a.bases[k].1];
      k := k + 1;
    }
    assert rs == Rvas(a);
    r := Some(rs);
  }

  method CheckSpaced(rs: seq<nat>) returns (ok: bool)
    ensures ok == Spaced(rs)
  {
    var i := 1;
    while i < |rs|
      invariant 1 <= i && forall k :: 0 < k < i && k < |rs| ==> rs[k - 1] + 8 <= rs[k]
    {
      if rs[i] < rs[i - 1] + 8 {
        return false;
      }
      i := i + 1;
    }
    ok := true;
  }

  /** It succeeds exactly when the sections fit the profile, the entry and all sites lie in their
      sections and no two sites overlap; the file is then as IsImage says, to the last byte. */
  method MakePe(a: Artifact) returns (r: Option<Bytes>)
    ensures r.Some? <==> Packable(a)
    ensures r.Some? ==> IsImage(r.value, a)
  {
    hide IsImage, IsFilled, Table, Sort, Rvas, HeadersAre, Outside, PiecesOf, Spaced;
    if !Sized(a) {
      return None;
    }
    var rvas := CollectRvas(a);
    if rvas.None? {
      return None;
    }
    var rs := Sort(rvas.value, UpTo);
    var ok := CheckSpaced(rs);
    if !ok {
      return None;
    }
    var size := TableSize(rs);
    var f := Frame(a.entry, |a.sections[0]|, 8 + |a.sections[1]|, if |a.sections[2]| > 0 then |a.sections[2]| else 8,
                   size, LayoutFor(a));
    FrameFits(a);
    var b := new Byte[f.Size()](_ => 0);
    PiecesAscend(a);
    PutAll(b, PiecesOf(a, f));
    ghost var was := b[..];
    Filled(was, a);
    PutTable(b, f.RelocAt(), rs);
    TablePlaced(b[..], was, a);
    r := Some(b[..]);
  }
}
