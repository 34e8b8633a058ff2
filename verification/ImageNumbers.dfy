/** The image file as numbers at byte offsets, and what it says about the entry. */
module ImageNumbers {
  import opened Sorting
  import opened Objects
  import opened ObjectFiles
  import opened ObjectNumbers
  import opened Relocations
  import opened PeImages

  function Le16(b: Bytes, at: nat): nat
    requires at + 2 <= |b|
  {
    var low: nat, high: nat := b[at], b[at + 1];
    low + 256 * high
  }

  lemma Halves(b: Bytes, at: nat, low: nat, high: nat)
    requires at + 4 <= |b| && Le32(b, at) == low + 65536 * high && low < 65536 && high < 65536
    ensures Le16(b, at) == low && Le16(b, at + 2) == high
  {
    var w: nat, x: nat := Le16(b, at), Le16(b, at + 2);
    assert w + 65536 * x == low + 65536 * high && w < 65536;
  }

  lemma WordIs(b: Bytes, at: nat, words: seq<nat>, k: nat)
    requires WordsAt(b, at, words) && k < |words| && at + 4 * k + 4 <= |b|
    ensures Le32(b, at + 4 * k) == words[k]
  {
    U32Is(b, at + 4 * k);
  }

  lemma LongEnough(b: Bytes, a: Artifact)
    requires Packable(a) && IsImage(b, a)
    ensures |b| >= 1024
  {
    hide HeadersAre, Zero, Sites, Holds, Multiple, Table;
    FrameFits(a);
  }

  /** Signature, machine, sections, entry, bases, alignments, sizes, subsystem and stack. */
  lemma HeaderNumbers(b: Bytes, a: Artifact)
    requires Packable(a) && IsImage(b, a)
    ensures |b| >= 1024 && b[0] == 77 && b[1] == 90 && Le32(b, 60) == 128 && Le32(b, 128) == 17744
    ensures Le16(b, 132) == 34404 && Le16(b, 134) == 4 && Le16(b, 148) == 240 && Le16(b, 150) == 8226
    ensures Le16(b, 152) == 523 && Le32(b, 168) == 4096 + a.entry && Le32(b, 172) == 4096 && Le64(b, 176) == 5368709120
    ensures Le32(b, 184) == 4096 && Le32(b, 188) == 512 && Le16(b, 192) == 6 && Le16(b, 200) == 6 && Le32(b, 212) == 1024
    ensures Le16(b, 220) == 10 && Le16(b, 222) == 352 && Le64(b, 224) == 1048576 && Le64(b, 232) == 4096
    ensures Le64(b, 240) == 1048576 && Le64(b, 248) == 4096 && Le32(b, 260) == 16
  {
    hide IsImage, WordsAt, Le16, Le32, FrameOf, U32, Packable;
    LongEnough(b, a);
    HeaderWords(b, a);
    HeadNumbers(b, a);
    OptionalNumbers(b, a);
    StackNumbers(b, a);
  }

  lemma HeaderWords(b: Bytes, a: Artifact)
    requires Packable(a) && IsImage(b, a)
    ensures |b| >= 1024 && b[0] == 77 && b[1] == 90 && Le32(b, 60) == 128 && FrameOf(a).entry == a.entry
    ensures WordsAt(b, 128, HeadWords(FrameOf(a))) && WordsAt(b, 152, OptionalWords(FrameOf(a)))
    ensures WordsAt(b, 264, DirectoryWords(FrameOf(a)))
    ensures forall j: nat :: j < 4 ==> WordsAt(b, 392 + 40 * j, SectionHeader(FrameOf(a), j))
  {
    hide WordsAt, HeadWords, OptionalWords, DirectoryWords, SectionHeader, Zero, Table, Sites;
    LongEnough(b, a);
    U32Is(b, 60);
    assert b[0..2][0] == 77 && b[0..2][1] == 90;
  }

  lemma HeadNumbers(b: Bytes, a: Artifact)
    requires Packable(a) && |b| >= 1024 && WordsAt(b, 128, HeadWords(FrameOf(a)))
    ensures Le32(b, 128) == 17744 && Le16(b, 132) == 34404 && Le16(b, 134) == 4 && Le16(b, 148) == 240 && Le16(b, 150) == 8226
  {
    hide WordsAt, Le16, Le32, FrameOf, U32, Packable;
    var ws := HeadWords(FrameOf(a));
    WordIs(b, 128, ws, 0);
    WordIs(b, 128, ws, 1);
    WordIs(b, 128, ws, 5);
    Halves(b, 132, 34404, 4);
    Halves(b, 148, 240, 8226);
  }

  lemma OptionalNumbers(b: Bytes, a: Artifact)
    requires Packable(a) && |b| >= 1024 && WordsAt(b, 152, OptionalWords(FrameOf(a))) && FrameOf(a).entry == a.entry
    ensures Le16(b, 152) == 523 && Le32(b, 168) == 4096 + a.entry && Le32(b, 172) == 4096 && Le64(b, 176) == 5368709120
    ensures Le32(b, 184) == 4096 && Le32(b, 188) == 512 && Le16(b, 192) == 6 && Le16(b, 200) == 6 && Le32(b, 212) == 1024
  {
    hide WordsAt, Le16, Le32, FrameOf, U32, Packable, Raw512;
    var ws := OptionalWords(FrameOf(a));
    WordIs(b, 152, ws, 0);
    WordIs(b, 152, ws, 4);
    WordIs(b, 152, ws, 5);
    WordIs(b, 152, ws, 6);
    WordIs(b, 152, ws, 7);
    WordIs(b, 152, ws, 8);
    WordIs(b, 152, ws, 9);
    WordIs(b, 152, ws, 10);
    WordIs(b, 152, ws, 12);
    WordIs(b, 152, ws, 15);
    Halves(b, 152, 523, 0);
    Halves(b, 192, 6, 0);
    Halves(b, 200, 6, 0);
  }

  lemma StackNumbers(b: Bytes, a: Artifact)
    requires Packable(a) && |b| >= 1024 && WordsAt(b, 152, OptionalWords(FrameOf(a)))
    ensures Le16(b, 220) == 10 && Le16(b, 222) == 352 && Le64(b, 224) == 1048576 && Le64(b, 232) == 4096
    ensures Le64(b, 240) == 1048576 && Le64(b, 248) == 4096 && Le32(b, 260) == 16
  {
    hide WordsAt, Le16, Le32, FrameOf, U32, Packable, Raw512;
    var ws := OptionalWords(FrameOf(a));
    WordIs(b, 152, ws, 17);
    WordIs(b, 152, ws, 18);
    WordIs(b, 152, ws, 19);
    WordIs(b, 152, ws, 20);
    WordIs(b, 152, ws, 21);
    WordIs(b, 152, ws, 22);
    WordIs(b, 152, ws, 23);
    WordIs(b, 152, ws, 24);
    WordIs(b, 152, ws, 25);
    WordIs(b, 152, ws, 27);
    Halves(b, 220, 10, 352);
  }

  // ----- Sections -----

  /** .text, .rdata, .data and .reloc, eight bytes each. */
  const NAMES: seq<seq<nat>> :=
    [[46, 116, 101, 120, 116, 0, 0, 0], [46, 114, 100, 97, 116, 97, 0, 0],
     [46, 100, 97, 116, 97, 0, 0, 0], [46, 114, 101, 108, 111, 99, 0, 0]]

  /** Code that is read and executed, data that is read, read and written, and read and discarded. */
  const FLAGS: seq<nat> := [1610612768, 1073741888, 3221225536, 1107296320]

  /** What a section has in the file: the artifact's sections and the table of sites, the second one
      behind eight bytes for the anchor, and eight bytes for an empty third one. */
  function SizeIn(a: Artifact, j: nat): nat
    requires Packable(a) && j < 4
  {
    if j == 0 then |a.sections[0]| else if j == 1 then 8 + |a.sections[1]|
    else if j == 2 then (if |a.sections[2]| == 0 then 8 else |a.sections[2]|) else |Table(Sites(a))|
  }

  /** The first multiple of n from x on. */
  predicate FirstFrom(r: nat, x: nat, n: nat)
    requires n > 0
  {
    x <= r < x + n && r % n == 0
  }

  /** Where section j begins in memory: the first page behind the one before. */
  ghost predicate Placed(b: Bytes, a: Artifact, j: nat)
    requires Packable(a) && j < 4 && |b| >= 1024
  {
    if j == 0 then Le32(b, 392 + 12) == 4096
    else FirstFrom(Le32(b, 392 + 40 * j + 12), Le32(b, 392 + 40 * (j - 1) + 12) + SizeIn(a, j - 1), 4096)
  }

  lemma NameNumbers(b: Bytes, at: nat, n0: nat, n1: nat, j: nat)
    requires at + 8 <= |b| && Le32(b, at) == n0 && Le32(b, at + 4) == n1 && j < 4
    requires n0 == [0x7865_742e, 0x6164_722e, 0x7461_642e, 0x6c65_722e][j] && n1 == [0x74, 0x6174, 0x61, 0x636f][j]
    ensures forall k :: 0 <= k < 8 ==> b[at + k] == NAMES[j][k]
  {
    BytesOf(b, at, NAMES[j][0], NAMES[j][1], NAMES[j][2], NAMES[j][3]);
    BytesOf(b, at + 4, NAMES[j][4], NAMES[j][5], NAMES[j][6], NAMES[j][7]);
  }

  lemma BytesOf(b: Bytes, at: nat, w0: nat, w1: nat, w2: nat, w3: nat)
    requires at + 4 <= |b| && w0 < 256 && w1 < 256 && w2 < 256 && w3 < 256
    requires Le32(b, at) == w0 + 256 * w1 + 65536 * w2 + 16777216 * w3
    ensures b[at] == w0 && b[at + 1] == w1 && b[at + 2] == w2 && b[at + 3] == w3
  {
    var x0: nat, x1: nat, x2: nat, x3: nat := b[at], b[at + 1], b[at + 2], b[at + 3];
    Peel(x0, x1 + 256 * (x2 + 256 * x3), w0, w1 + 256 * (w2 + 256 * w3));
    Peel(x1, x2 + 256 * x3, w1, w2 + 256 * w3);
    Peel(x2, x3, w2, w3);
  }

  lemma Peel(x: nat, rest: nat, w: nat, more: nat)
    requires x < 256 && w < 256 && x + 256 * rest == w + 256 * more
    ensures x == w && rest == more
  {
  }

  /** The header of a section: its name, size, place in memory and in the file, and permissions. */
  lemma SectionNumbers(b: Bytes, a: Artifact, j: nat)
    requires Packable(a) && IsImage(b, a) && j < 4
    ensures |b| >= 1024
    ensures var at := 392 + 40 * j;
            && (forall k :: 0 <= k < 8 ==> b[at + k] == NAMES[j][k])
            && Le32(b, at + 8) == SizeIn(a, j) && Placed(b, a, j)
            && FirstFrom(Le32(b, at + 16), SizeIn(a, j), 512) && Le32(b, at + 36) == FLAGS[j]
  {
    hide IsImage, WordsAt, Le16, Le32, U32, Packable, Sites, Table;
    LongEnough(b, a);
    HeaderWords(b, a);
    var f, at := FrameOf(a), 392 + 40 * j;
    var ws := SectionHeader(f, j);
    assert WordsAt(b, at, ws);
    WordIs(b, at, ws, 0);
    WordIs(b, at, ws, 1);
    WordIs(b, at, ws, 2);
    WordIs(b, at, ws, 4);
    WordIs(b, at, ws, 9);
    NameNumbers(b, at, ws[0], ws[1], j);
    MultipleIs(SizeIn(a, j), 512);
    SectionPlaced(b, a, j);
  }

  lemma RvaNumber(b: Bytes, a: Artifact, j: nat)
    requires Packable(a) && |b| >= 1024 && WordsAt(b, 392 + 40 * j, SectionHeader(FrameOf(a), j)) && j < 4
    ensures var l := FrameOf(a).layout;
            Le32(b, 392 + 40 * j + 12) == if j == 0 then l.text else if j == 1 then l.rdata else if j == 2 then l.data else l.reloc
  {
    hide WordsAt, Le32, U32, Packable, Raw512;
    WordIs(b, 392 + 40 * j, SectionHeader(FrameOf(a), j), 3);
  }

  lemma SectionPlaced(b: Bytes, a: Artifact, j: nat)
    requires Packable(a) && |b| >= 1024 && j < 4
    requires forall i: nat :: i < 4 ==> WordsAt(b, 392 + 40 * i, SectionHeader(FrameOf(a), i))
    ensures Placed(b, a, j)
  {
    hide WordsAt, Le32, U32, Packable, Raw512, SectionHeader, Pages, Table, Sites;
    RvaNumber(b, a, j);
    FrameFits(a);
    if j > 0 {
      RvaNumber(b, a, j - 1);
      PagesAre(Le32(b, 392 + 40 * (j - 1) + 12) + SizeIn(a, j - 1));
    }
  }

  lemma PagesAre(n: nat)
    ensures FirstFrom(Pages(n), n, 4096)
  {
    MultipleIs(n, 4096);
  }

  /** The anchor, the first eight bytes of .rdata in the file, holds the address of the entry under the
      image base; and its place in memory is a relocation site, so a loader moves it along. */
  lemma AnchorIsEntry(b: Bytes, a: Artifact)
    requires Packable(a) && IsImage(b, a)
    ensures |b| >= 1024 && Le32(b, 452) + 8 <= |b|
    ensures Le64(b, Le32(b, 452)) == Le64(b, 176) + Le32(b, 168)
    ensures Le32(b, 444) in Sites(a)
  {
    hide IsImage, WordsAt, Le32, U32, Packable, Table, Sites;
    HeaderNumbers(b, a);
    HeaderWords(b, a);
    RvaNumber(b, a, 1);
    WordIs(b, 432, SectionHeader(FrameOf(a), 1), 5);
    AnchorAt(b, a);
    AnchorSite(a);
    U64Is(b, FrameOf(a).RdataAt());
  }

  lemma AnchorAt(b: Bytes, a: Artifact)
    requires Packable(a) && IsImage(b, a)
    ensures U64(b, FrameOf(a).RdataAt()) == 5368709120 + 4096 + a.entry && FrameOf(a).RdataAt() + 8 <= |b|
  {
    hide WordsAt, U32, Table, Sites, HeadersAre, Zero;
    FrameFits(a);
  }

  lemma AnchorSite(a: Artifact)
    requires Packable(a)
    ensures FrameOf(a).layout.rdata in Sites(a)
  {
    SitesAre(a);
    assert Rvas(a)[0] == FrameOf(a).layout.rdata;
    assert Rvas(a)[0] in multiset(Rvas(a));
    assert Rvas(a)[0] in multiset(Sites(a));
  }
}
