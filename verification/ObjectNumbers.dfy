/** The file of an object as numbers at byte offsets. */
module ObjectNumbers {
  import opened Objects
  import opened ObjectFiles

  function Le32(b: Bytes, at: nat): nat
    requires at + 4 <= |b|
  {
    var w0: nat, w1: nat, w2: nat, w3: nat := b[at], b[at + 1], b[at + 2], b[at + 3];
    w0 + 256 * w1 + 65536 * w2 + 16777216 * w3
  }

  function Le64(b: Bytes, at: nat): nat
    requires at + 8 <= |b|
  {
    Le32(b, at) + 4294967296 * Le32(b, at + 4)
  }

  lemma U32Is(b: Bytes, at: nat)
    requires at + 4 <= |b|
    ensures U32(b, at) == Le32(b, at)
  {
    var s := b[at..at + 4];
    assert s[1..][1..][1..][1..] == [];
    assert s[1..][0] == s[1] && s[1..][1..][0] == s[2] && s[1..][1..][1..][0] == s[3];
    var w1: nat, w2: nat, w3: nat := s[1], s[2], s[3];
    assert Number(s[1..][1..][1..]) == w3;
    assert Number(s[1..][1..]) == w2 + 256 * w3;
    assert Number(s[1..]) == w1 + 256 * (w2 + 256 * w3);
  }

  lemma U64Is(b: Bytes, at: nat)
    requires at + 8 <= |b|
    ensures U64(b, at) == Le64(b, at)
  {
    U32Is(b, at);
    U32Is(b, at + 4);
  }

  lemma FileIsLong(b: Bytes, o: Object)
    requires |o.sections| == 3 && Encodes(b, o)
    ensures 240 + 64 * |o.symbols| + 40 * |o.relocs| + TextAt(o.symbols, |o.symbols|) <= |b|
  {
    hide SymbolIs, RelocIs, HeaderIs, SectionIs, Zero, Multiple;
    assert RawEnd(o, 0) >= TablesEnd(o);
    assert RawEnd(o, 1) >= RawEnd(o, 0) && RawEnd(o, 2) >= RawEnd(o, 1) && RawEnd(o, 3) >= RawEnd(o, 2);
  }

  /** The header: signature, version, target, counts, and where the tables and texts begin. */
  lemma HeaderNumbers(b: Bytes, o: Object)
    requires |o.sections| == 3 && Encodes(b, o)
    ensures |b| >= 240 && b[..8] == [78, 88, 79, 86, 48, 48, 48, 49]
    ensures Le32(b, 8) == 1 && Le32(b, 12) == o.target && Le32(b, 16) == 1 && Le32(b, 20) == 3
    ensures Le32(b, 24) == |o.symbols| && Le32(b, 28) == |o.relocs| && Le64(b, 32) == 96 && Le64(b, 40) == 240
    ensures Le64(b, 48) == 240 + 64 * |o.symbols| && Le64(b, 56) == 240 + 64 * |o.symbols| + 40 * |o.relocs|
    ensures Le64(b, 80) == |b| && Le32(b, 88) == o.entry && Le32(b, 92) == 0
  {
    hide U32, U64, Le32, Le64, SectionIs, SymbolIs, RelocIs, Zero, RawEnd;
    FileIsLong(b, o);
    U32Is(b, 8);
    U32Is(b, 12);
    U32Is(b, 16);
    U32Is(b, 20);
    U32Is(b, 24);
    U32Is(b, 28);
    U64Is(b, 32);
    U64Is(b, 40);
    U64Is(b, 48);
    U64Is(b, 56);
    U64Is(b, 80);
    U32Is(b, 88);
    U32Is(b, 92);
  }

  /** Sections are read and execute, read only, and read and write. */
  const PERMISSIONS: seq<nat> := [5, 1, 3]
  const ALIGNMENTS: seq<nat> := [16, 8, 8]

  /** The record of a section: its number, permissions, alignment and size, and its bytes at the
      offset that stands there, which is a multiple of sixteen. */
  lemma SectionNumbers(b: Bytes, o: Object, j: nat)
    requires |o.sections| == 3 && Encodes(b, o) && j < 3
    ensures |b| >= 240
    ensures var at := 96 + 48 * j;
            && Le32(b, at) == j + 1 && Le32(b, at + 4) == PERMISSIONS[j] && Le64(b, at + 8) == ALIGNMENTS[j]
            && Le64(b, at + 16) == |o.sections[j]| && Le64(b, at + 24) % 16 == 0
            && Le64(b, at + 24) + |o.sections[j]| <= |b|
            && b[Le64(b, at + 24)..Le64(b, at + 24) + |o.sections[j]|] == o.sections[j]
  {
    hide U32, U64, Le32, Le64, SymbolIs, RelocIs, HeaderIs, Zero, RawEnd;
    FileIsLong(b, o);
    var at := 96 + 48 * j;
    U32Is(b, at);
    U32Is(b, at + 4);
    U64Is(b, at + 8);
    U64Is(b, at + 16);
    U64Is(b, at + 24);
    assert SectionIs(b, o, j);
    MultipleIs(RawEnd(o, j), 16);
  }

  lemma {:induction false} TextsInside(ss: seq<Symbol>, j: nat)
    requires j < |ss|
    ensures TextAt(ss, j) + |ss[j].name| + |ss[j].contract| <= TextAt(ss, |ss|)
  {
    TextsGrow(ss, j + 1, |ss|);
  }

  lemma {:induction false} TextsGrow(ss: seq<Symbol>, j: nat, n: nat)
    requires j <= n <= |ss|
    ensures TextAt(ss, j) <= TextAt(ss, n)
    decreases n
  {
    if j < n {
      TextsGrow(ss, j, n - 1);
    }
  }

  /** The record of a symbol, with its texts where the record says. */
  lemma SymbolNumbers(b: Bytes, o: Object, j: nat)
    requires |o.sections| == 3 && Encodes(b, o) && j < |o.symbols|
    ensures 304 + 64 * j <= |b| && |b| >= 240
    ensures var at, s, texts := 240 + 64 * j, o.symbols[j], 240 + 64 * |o.symbols| + 40 * |o.relocs|;
            && Le32(b, at + 4) == |s.name| && Le32(b, at + 8) == s.section && Le32(b, at + 12) == s.flags
            && Le64(b, at + 16) == s.offset && Le64(b, at + 24) == s.size && Le32(b, at + 36) == |s.contract|
            && Le32(b, at + 40) == 1 && texts + Le32(b, at) + |s.name| <= |b| && texts + Le32(b, at + 32) + |s.contract| <= |b|
            && b[texts + Le32(b, at)..texts + Le32(b, at) + |s.name|] == s.name
            && b[texts + Le32(b, at + 32)..texts + Le32(b, at + 32) + |s.contract|] == s.contract
  {
    hide U32, U64, Le32, Le64, SectionIs, RelocIs, HeaderIs, Zero, RawEnd, TextAt;
    FileIsLong(b, o);
    TextsInside(o.symbols, j);
    var at := 240 + 64 * j;
    U32Is(b, at);
    U32Is(b, at + 4);
    U32Is(b, at + 8);
    U32Is(b, at + 12);
    U64Is(b, at + 16);
    U64Is(b, at + 24);
    U32Is(b, at + 32);
    U32Is(b, at + 36);
    U32Is(b, at + 40);
    assert SymbolIs(b, o, j);
  }

  /** The record of a relocation, its addend in two's complement. */
  lemma RelocNumbers(b: Bytes, o: Object, j: nat)
    requires |o.sections| == 3 && Encodes(b, o) && j < |o.relocs|
    ensures 280 + 64 * |o.symbols| + 40 * j <= |b|
    ensures var at, r := 240 + 64 * |o.symbols| + 40 * j, o.relocs[j];
            && Le32(b, at) == r.section && Le32(b, at + 4) == r.kind && Le64(b, at + 8) == r.offset
            && Le32(b, at + 16) == r.target
            && Le64(b, at + 24) == if r.addend < 0 then 18446744073709551616 + r.addend else r.addend
  {
    hide U32, U64, Le32, Le64, SectionIs, SymbolIs, HeaderIs, Zero, RawEnd, TextAt;
    FileIsLong(b, o);
    var at := 240 + 64 * |o.symbols| + 40 * j;
    U32Is(b, at);
    U32Is(b, at + 4);
    U64Is(b, at + 8);
    U32Is(b, at + 16);
    U64Is(b, at + 24);
    assert RelocIs(b, o, j);
  }
}
