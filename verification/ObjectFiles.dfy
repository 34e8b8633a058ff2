/** The NXOV0001 file format: writing and reading relocatable objects. */
module ObjectFiles {
  import opened Objects

  datatype Option<T> = None | Some(value: T)

  const MAGIC: seq<Byte> := [78, 88, 79, 86, 48, 48, 48, 49]
  const W32: nat := 0x1_0000_0000
  const SYMBOLS_AT: nat := 240

  type Bytes = seq<Byte>

  // ----- Fields -----

  /** The little-endian number of some bytes. */
  function Number(b: Bytes): nat {
    if b == [] then 0 else b[0] + 0x100 * Number(b[1..])
  }

  function U32(b: Bytes, at: nat): nat {
    if at + 4 <= |b| then Number(b[at..at + 4]) else 0
  }

  function U64(b: Bytes, at: nat): nat {
    U32(b, at) + W32 * U32(b, at + 4)
  }

  function Slice(b: Bytes, at: nat, n: nat): Bytes {
    if at + n <= |b| then b[at..at + n] else []
  }

  predicate Holds(b: Bytes, at: nat, s: Bytes) {
    at + |s| <= |b| && b[at..at + |s|] == s
  }

  predicate Zero(b: Bytes, from: nat, to: nat) {
    from <= to <= |b| && forall i :: from <= i < to ==> b[i] == 0
  }

  /** The next multiple of a. */
  function Multiple(n: nat, a: nat): (r: nat)
    requires a > 0
    ensures n <= r < n + a
  {
    if n == 0 then 0 else if n <= a then a else a + Multiple(n - a, a)
  }

  /** What adding a - 1 and clearing the low bits gives, for the powers of two that are used. */
  lemma {:induction false} MultipleIs(n: nat, a: nat)
    requires a > 0
    ensures Multiple(n, a) == (n + a - 1) / a * a && Multiple(n, a) % a == 0
    decreases n
  {
    if n == 0 {
      Quotient(n + a - 1, a, 0, a - 1);
      Quotient(0, a, 0, 0);
    } else if n <= a {
      Quotient(n + a - 1, a, 1, n - 1);
      Quotient(a, a, 1, 0);
    } else {
      MultipleIs(n - a, a);
      var q := (n - 1) / a;
      Quotient(n + a - 1, a, q + 1, (n - 1) % a);
      assert (q + 1) * a == q * a + a;
      Quotient(Multiple(n, a), a, q + 1, 0);
    }
  }

  lemma Quotient(n: nat, a: nat, q: nat, r: nat)
    requires r < a && n == q * a + r
    ensures n / a == q && n % a == r
  {
    var d := n / a - q;
    assert n == n / a * a + n % a;
    assert d * a == r - n % a;
    Magnitude(d, a);
  }

  lemma Magnitude(d: int, a: nat)
    requires a > 0
    ensures d >= 1 ==> d * a >= a
    ensures d <= -1 ==> d * a <= -1 * a
  {
  }

  function Aligned(n: nat): (r: nat)
    ensures n <= r < n + 16
  {
    Multiple(n, 16)
  }

  /** The addend as an unsigned word. */
  function Word(a: Int64): nat {
    if a < 0 then a + W64 else a
  }

  function Signed(n: nat): Int64 {
    if n < 0x8000_0000_0000_0000 then n else if n < W64 then n - W64 else 0
  }

  // ----- Layout -----

  function TextAt(ss: seq<Symbol>, j: nat): nat
    requires j <= |ss|
  {
    if j == 0 then 0 else TextAt(ss, j - 1) + |ss[j - 1].name| + |ss[j - 1].contract|
  }

  function RelocsAt(o: Object): nat {
    SYMBOLS_AT + 64 * |o.symbols|
  }

  function TextsAt(o: Object): nat {
    RelocsAt(o) + 40 * |o.relocs|
  }

  function TablesEnd(o: Object): nat {
    TextsAt(o) + TextAt(o.symbols, |o.symbols|)
  }

  /** Where the bytes before section j end. */
  function RawEnd(o: Object, j: nat): nat
    requires |o.sections| == 3 && j <= 3
    decreases j, 0
  {
    if j == 0 then Aligned(TablesEnd(o)) else SectionAt(o, j - 1) + |o.sections[j - 1]|
  }

  function SectionAt(o: Object, j: nat): nat
    requires |o.sections| == 3 && j <= 3
    decreases j, 1
  {
    Aligned(RawEnd(o, j))
  }

  function FileSize(o: Object): nat
    requires |o.sections| == 3
  {
    RawEnd(o, 3)
  }

  function Permissions(j: nat): nat {
    if j == 0 then 5 else if j == 1 then 1 else 3
  }

  function Alignment(j: nat): nat {
    if j == 0 then 16 else 8
  }

  // ----- The file of an object -----

  predicate HeaderIs(b: Bytes, o: Object)
    requires |o.sections| == 3
  {
    && Holds(b, 0, MAGIC) && U32(b, 8) == 1 && U32(b, 12) == o.target && U32(b, 16) == 1 && U32(b, 20) == 3
    && U32(b, 24) == |o.symbols| && U32(b, 28) == |o.relocs| && U64(b, 32) == 96 && U64(b, 40) == SYMBOLS_AT
    && U64(b, 48) == RelocsAt(o) && U64(b, 56) == TextsAt(o) && U64(b, 64) == TextAt(o.symbols, |o.symbols|)
    && U64(b, 72) == RawEnd(o, 0) && U64(b, 80) == FileSize(o) && U32(b, 88) == o.entry && U32(b, 92) == 0
  }

  predicate SectionIs(b: Bytes, o: Object, j: nat)
    requires |o.sections| == 3 && j < 3
  {
    var at := 96 + 48 * j;
    && U32(b, at) == j + 1 && U32(b, at + 4) == Permissions(j) && U64(b, at + 8) == Alignment(j)
    && U64(b, at + 16) == |o.sections[j]| && U64(b, at + 24) == SectionAt(o, j)
    && U64(b, at + 32) == 0 && U64(b, at + 40) == 0
    && Zero(b, RawEnd(o, j), SectionAt(o, j)) && Holds(b, SectionAt(o, j), o.sections[j])
  }

  predicate SymbolIs(b: Bytes, o: Object, j: nat)
    requires j < |o.symbols|
  {
    var at, text, s := SYMBOLS_AT + 64 * j, TextAt(o.symbols, j), o.symbols[j];
    && U32(b, at) == text && U32(b, at + 4) == |s.name| && U32(b, at + 8) == s.section && U32(b, at + 12) == s.flags
    && U64(b, at + 16) == s.offset && U64(b, at + 24) == s.size
    && U32(b, at + 32) == text + |s.name| && U32(b, at + 36) == |s.contract|
    && U32(b, at + 40) == 1 && U32(b, at + 44) == 0 && U64(b, at + 48) == 0 && U64(b, at + 56) == 0
    && Holds(b, TextsAt(o) + text, s.name) && Holds(b, TextsAt(o) + text + |s.name|, s.contract)
  }

  predicate RelocIs(b: Bytes, o: Object, j: nat)
    requires j < |o.relocs|
  {
    var at, r := RelocsAt(o) + 40 * j, o.relocs[j];
    && U32(b, at) == r.section && U32(b, at + 4) == r.kind && U64(b, at + 8) == r.offset && U32(b, at + 16) == r.target
    && U32(b, at + 20) == 0 && U64(b, at + 24) == Word(r.addend) && U64(b, at + 32) == 0
  }

  /** b is the file of o. */
  ghost predicate Encodes(b: Bytes, o: Object)
    requires |o.sections| == 3
  {
    && |b| == FileSize(o) && HeaderIs(b, o) && Zero(b, TablesEnd(o), RawEnd(o, 0))
    && (forall j :: 0 <= j < 3 ==> SectionIs(b, o, j))
    && (forall j :: 0 <= j < |o.symbols| ==> SymbolIs(b, o, j))
    && (forall j :: 0 <= j < |o.relocs| ==> RelocIs(b, o, j))
  }

  predicate Writable(o: Object): (r: bool)
    ensures r ==> |o.sections| == 3
  {
    Valid(o) && FileSize(o) <= MAX_FILE
  }

  // ----- What the reader accepts -----

  predicate HeaderOk(b: Bytes) {
    && 240 <= |b| <= MAX_FILE
    && b[..8] == MAGIC && U32(b, 8) == 1 && U32(b, 16) == 1 && U32(b, 20) == 3 && U32(b, 92) == 0
    && U32(b, 24) <= MAX_SYMBOLS && U32(b, 28) <= MAX_RELOCS && U64(b, 32) == 96 && U64(b, 40) == SYMBOLS_AT
    && U64(b, 48) == U64(b, 40) + 64 * U32(b, 24) && U64(b, 56) == U64(b, 48) + 40 * U32(b, 28)
    && U64(b, 56) + U64(b, 64) <= |b| && U64(b, 72) == Aligned(U64(b, 56) + U64(b, 64)) && U64(b, 72) <= |b|
    && U64(b, 80) == |b| && Zero(b, U64(b, 56) + U64(b, 64), U64(b, 72))
  }

  function Raw(b: Bytes, j: nat): nat {
    if j == 0 then U64(b, 72) else U64(b, 48 + 48 * j + 24) + U64(b, 48 + 48 * j + 16)
  }

  predicate SectionOk(b: Bytes, j: nat) {
    var at := 96 + 48 * j;
    && U32(b, at) == j + 1 && U32(b, at + 4) == Permissions(j) && U64(b, at + 8) == Alignment(j)
    && U64(b, at + 32) == 0 && U64(b, at + 40) == 0 && U64(b, at + 24) == Aligned(Raw(b, j))
    && U64(b, at + 24) + U64(b, at + 16) <= |b| && Zero(b, Raw(b, j), U64(b, at + 24))
  }

  function Cursor(b: Bytes, j: nat): nat {
    if j == 0 then 0 else U32(b, SYMBOLS_AT + 64 * (j - 1) + 32) + U32(b, SYMBOLS_AT + 64 * (j - 1) + 36)
  }

  predicate SymbolOk(b: Bytes, j: nat) {
    var at, texts := SYMBOLS_AT + 64 * j, U64(b, 56);
    var no, nl, co, cl := U32(b, at), U32(b, at + 4), U32(b, at + 32), U32(b, at + 36);
    && no == Cursor(b, j) && 0 < nl <= 512 && 0 < cl <= 65536 && co == no + nl
    && no + nl <= U64(b, 64) && co + cl <= U64(b, 64)
    && 0 !in Slice(b, texts + no, nl) && 0 !in Slice(b, texts + co, cl)
    && U32(b, at + 40) == 1 && U32(b, at + 44) == 0 && U64(b, at + 48) == 0 && U64(b, at + 56) == 0
  }

  predicate RelocOk(b: Bytes, j: nat) {
    var at := U64(b, 48) + 40 * j;
    U32(b, at + 20) == 0 && U64(b, at + 32) == 0
  }

  function SymbolAt(b: Bytes, j: nat): Symbol {
    var at, texts := SYMBOLS_AT + 64 * j, U64(b, 56);
    Symbol(Slice(b, texts + U32(b, at), U32(b, at + 4)), Slice(b, texts + U32(b, at + 32), U32(b, at + 36)),
           U32(b, at + 8), U32(b, at + 12), U64(b, at + 16), U64(b, at + 24))
  }

  function RelocAt(b: Bytes, j: nat): Reloc {
    var at := U64(b, 48) + 40 * j;
    Reloc(U32(b, at), U32(b, at + 4), U32(b, at + 16), U64(b, at + 8), Signed(U64(b, at + 24)))
  }

  function SectionBytes(b: Bytes, j: nat): Bytes {
    Slice(b, U64(b, 96 + 48 * j + 24), U64(b, 96 + 48 * j + 16))
  }

  function Decoded(b: Bytes): Object {
    Object(U32(b, 12), U32(b, 88), seq(3, (j: nat) => SectionBytes(b, j)),
           seq(U32(b, 24), (j: nat) => SymbolAt(b, j)), seq(U32(b, 28), (j: nat) => RelocAt(b, j)))
  }

  predicate Accepted(b: Bytes) {
    && HeaderOk(b) && (forall j: nat :: j < 3 ==> SectionOk(b, j)) && Raw(b, 3) == |b|
    && (forall j: nat :: j < U32(b, 24) ==> SymbolOk(b, j)) && Cursor(b, U32(b, 24)) == U64(b, 64)
    && (forall j: nat :: j < U32(b, 28) ==> RelocOk(b, j))
    && Valid(Decoded(b))
  }

  // ----- The reader -----

  method ReadSections(b: Bytes) returns (r: Option<seq<Bytes>>)
    requires HeaderOk(b)
    ensures r == if (forall j: nat :: j < 3 ==> SectionOk(b, j)) && Raw(b, 3) == |b| then Some(Decoded(b).sections) else None
  {
    hide U32, U64, Zero, Aligned;
    var raw, j, sections := U64(b, 72), 0, [];
    while j < 3
      invariant 0 <= j <= 3 && raw == Raw(b, j)
      invariant forall i: nat :: i < j ==> SectionOk(b, i)
      invariant |sections| == j && forall i: nat :: i < j ==> sections[i] == SectionBytes(b, i)
    {
      if !SectionOk(b, j) {
        return None;
      }
      sections := sections + [SectionBytes(b, j)];
      raw := U64(b, 96 + 48 * j + 24) + U64(b, 96 + 48 * j + 16);
      j := j + 1;
    }
    assert sections == Decoded(b).sections;
    r := if raw == |b| then Some(sections) else None;
  }

  method ReadSymbols(b: Bytes) returns (r: Option<seq<Symbol>>)
    ensures r == if (forall j: nat :: j < U32(b, 24) ==> SymbolOk(b, j)) && Cursor(b, U32(b, 24)) == U64(b, 64)
                 then Some(Decoded(b).symbols) else None
  {
    hide U32, U64;
    var cursor, j, symbols := 0, 0, [];
    while j < U32(b, 24)
      invariant 0 <= j <= U32(b, 24) && cursor == Cursor(b, j)
      invariant forall i: nat :: i < j ==> SymbolOk(b, i)
      invariant |symbols| == j && forall i: nat :: i < j ==> symbols[i] == SymbolAt(b, i)
    {
      if !SymbolOk(b, j) {
        return None;
      }
      symbols := symbols + [SymbolAt(b, j)];
      cursor := U32(b, SYMBOLS_AT + 64 * j + 32) + U32(b, SYMBOLS_AT + 64 * j + 36);
      j := j + 1;
    }
    assert symbols == Decoded(b).symbols;
    r := if cursor == U64(b, 64) then Some(symbols) else None;
  }

  method ReadRelocs(b: Bytes) returns (r: Option<seq<Reloc>>)
    ensures r == if forall j: nat :: j < U32(b, 28) ==> RelocOk(b, j) then Some(Decoded(b).relocs) else None
  {
    hide U32, U64;
    var j, relocs := 0, [];
    while j < U32(b, 28)
      invariant 0 <= j <= U32(b, 28)
      invariant forall i: nat :: i < j ==> RelocOk(b, i)
      invariant |relocs| == j && forall i: nat :: i < j ==> relocs[i] == RelocAt(b, i)
    {
      if !RelocOk(b, j) {
        return None;
      }
      relocs := relocs + [RelocAt(b, j)];
      j := j + 1;
    }
    assert relocs == Decoded(b).relocs;
    r := Some(relocs);
  }

  /** A file is accepted exactly when it is the file of a writable object, which is then returned. */
  method Read(b: Bytes) returns (r: Option<Object>)
    ensures r.Some? ==> Writable(r.value) && Encodes(b, r.value)
    ensures r.None? ==> forall o :: Writable(o) ==> !Encodes(b, o)
  {
    hide U32, U64, HeaderOk, SectionOk, SymbolOk, RelocOk, Encodes, Writable, Raw, Cursor;
    forall o | Writable(o) && Encodes(b, o)
      ensures Accepted(b)
    {
      FileIsAccepted(b, o);
    }
    if !HeaderOk(b) {
      return None;
    }
    var sections := ReadSections(b);
    if sections.None? {
      return None;
    }
    var symbols := ReadSymbols(b);
    if symbols.None? {
      return None;
    }
    var relocs := ReadRelocs(b);
    if relocs.None? {
      return None;
    }
    var o := Object(U32(b, 12), U32(b, 88), sections.value, symbols.value, relocs.value);
    assert o == Decoded(b);
    var valid := Validate(o);
    if valid {
      AcceptedIsFile(b);
      r := Some(o);
    } else {
      r := None;
    }
  }

  // ----- The reader inverts the format -----

  lemma DecodedText(b: Bytes, j: nat)
    requires Accepted(b) && j <= U32(b, 24)
    ensures TextAt(Decoded(b).symbols, j) == Cursor(b, j)
    decreases j
  {
    hide U32, U64, Valid;
    if j > 0 {
      DecodedText(b, j - 1);
      assert SymbolOk(b, j - 1);
      assert Decoded(b).symbols[j - 1] == SymbolAt(b, j - 1);
    }
  }

  lemma DecodedTables(b: Bytes)
    requires Accepted(b)
    ensures var o := Decoded(b);
            && RelocsAt(o) == U64(b, 48) && TextsAt(o) == U64(b, 56) && TextAt(o.symbols, |o.symbols|) == U64(b, 64)
            && RawEnd(o, 0) == U64(b, 72)
  {
    hide U32, U64, Valid, Zero;
    DecodedText(b, U32(b, 24));
  }

  lemma {:induction false} DecodedRaw(b: Bytes, j: nat)
    requires Accepted(b) && j <= 3
    ensures RawEnd(Decoded(b), j) == Raw(b, j)
    ensures j < 3 ==> |Decoded(b).sections[j]| == U64(b, 96 + 48 * j + 16) && SectionAt(Decoded(b), j) == U64(b, 96 + 48 * j + 24)
  {
    hide U32, U64, Valid, Zero, HeaderOk, Aligned;
    DecodedTables(b);
    if j > 0 {
      DecodedRaw(b, j - 1);
    }
    if j < 3 {
      assert SectionOk(b, j);
    }
  }

  lemma AcceptedSection(b: Bytes, j: nat)
    requires Accepted(b) && j < 3
    ensures SectionIs(b, Decoded(b), j)
  {
    hide U32, U64, Valid, HeaderOk, Aligned;
    DecodedRaw(b, j);
    assert SectionOk(b, j);
  }

  lemma AcceptedSymbol(b: Bytes, j: nat)
    requires Accepted(b) && j < U32(b, 24)
    ensures SymbolIs(b, Decoded(b), j)
  {
    hide U32, U64, Valid, Zero, Aligned;
    DecodedTables(b);
    DecodedText(b, j);
    assert SymbolOk(b, j);
    assert Decoded(b).symbols[j] == SymbolAt(b, j);
  }

  lemma AcceptedReloc(b: Bytes, j: nat)
    requires Accepted(b) && j < U32(b, 28)
    ensures RelocIs(b, Decoded(b), j)
  {
    hide U32, U64, Valid, Zero, Aligned, HeaderOk, Word, Signed;
    DecodedTables(b);
    assert RelocOk(b, j);
    assert Decoded(b).relocs[j] == RelocAt(b, j);
    WordOfSigned(b, U64(b, 48) + 40 * j + 24);
  }

  lemma AcceptedHeader(b: Bytes)
    requires Accepted(b)
    ensures |Decoded(b).sections| == 3 && |b| == FileSize(Decoded(b)) && HeaderIs(b, Decoded(b))
    ensures Zero(b, TablesEnd(Decoded(b)), RawEnd(Decoded(b), 0))
  {
    hide U32, U64, Valid, Aligned;
    DecodedTables(b);
    DecodedRaw(b, 3);
  }

  /** What the reader accepts is the file of what it returns. */
  lemma AcceptedIsFile(b: Bytes)
    requires Accepted(b)
    ensures Writable(Decoded(b)) && Encodes(b, Decoded(b))
  {
    hide U32, U64, Valid, SectionIs, SymbolIs, RelocIs, HeaderIs, Zero, SectionOk, SymbolOk, RelocOk;
    AcceptedHeader(b);
    forall j | 0 <= j < 3
      ensures SectionIs(b, Decoded(b), j)
    {
      AcceptedSection(b, j);
    }
    forall j | 0 <= j < U32(b, 24)
      ensures SymbolIs(b, Decoded(b), j)
    {
      AcceptedSymbol(b, j);
    }
    forall j | 0 <= j < U32(b, 28)
      ensures RelocIs(b, Decoded(b), j)
    {
      AcceptedReloc(b, j);
    }
  }

  lemma NumberOfFour(a: Byte, b: Byte, c: Byte, d: Byte)
    ensures Number([a, b, c, d]) == a + 0x100 * (b + 0x100 * (c + 0x100 * d)) < W32
  {
    assert [a, b, c, d][1..] == [b, c, d] && [b, c, d][1..] == [c, d] && [c, d][1..] == [d];
    assert Number([d]) == d && Number([c, d]) == c + 0x100 * Number([d]);
    assert Number([b, c, d]) == b + 0x100 * Number([c, d]);
  }

  lemma FourBytes(b: Bytes, at: nat)
    requires at + 4 <= |b|
    ensures U32(b, at) == Number([b[at], b[at + 1], b[at + 2], b[at + 3]])
  {
    assert b[at..at + 4] == [b[at], b[at + 1], b[at + 2], b[at + 3]];
  }

  lemma U32Bound(b: Bytes, at: nat)
    ensures U32(b, at) < W32
  {
    if at + 4 <= |b| {
      FourBytes(b, at);
      NumberOfFour(b[at], b[at + 1], b[at + 2], b[at + 3]);
    }
  }

  lemma WordOfSigned(b: Bytes, at: nat)
    ensures Word(Signed(U64(b, at))) == U64(b, at)
  {
    U32Bound(b, at);
    U32Bound(b, at + 4);
  }

  /** The file of a writable object is accepted and read back as that object. */
  lemma FileIsAccepted(b: Bytes, o: Object)
    requires Writable(o) && Encodes(b, o)
    ensures Accepted(b) && Decoded(b) == o
  {
    hide U32, U64, HeaderOk, SectionOk, SymbolOk, RelocOk, RelocIs;
    FileIsDecoded(b, o);
    FileHeader(b, o);
    forall j: nat | j < 3
      ensures SectionOk(b, j)
    {
      FileSection(b, o, j);
    }
    assert Raw(b, 3) == |b| by {
      assert SectionIs(b, o, 2);
    }
    forall j: nat | j < U32(b, 24)
      ensures SymbolOk(b, j)
    {
      FileSymbol(b, o, j);
    }
    FileCursor(b, o, |o.symbols|);
    forall j: nat | j < U32(b, 28)
      ensures RelocOk(b, j)
    {
      FileReloc(b, o, j);
    }
  }

  lemma FileReloc(b: Bytes, o: Object, j: nat)
    requires Writable(o) && Encodes(b, o) && j < |o.relocs|
    ensures RelocOk(b, j)
  {
    hide U32, U64;
    assert RelocIs(b, o, j);
  }

  lemma FileHeader(b: Bytes, o: Object)
    requires Writable(o) && Encodes(b, o)
    ensures HeaderOk(b)
  {
    hide U32, U64, Aligned, ValidSymbol;
    RawGrows(o);
  }

  lemma RawGrows(o: Object)
    requires |o.sections| == 3
    ensures TablesEnd(o) <= RawEnd(o, 0) <= RawEnd(o, 1) <= RawEnd(o, 2) <= RawEnd(o, 3)
    ensures RawEnd(o, 0) <= SectionAt(o, 0) <= RawEnd(o, 1) <= SectionAt(o, 1) <= RawEnd(o, 2) <= SectionAt(o, 2) <= RawEnd(o, 3)
  {
  }

  lemma FileSection(b: Bytes, o: Object, j: nat)
    requires Writable(o) && Encodes(b, o) && j < 3
    ensures SectionOk(b, j)
  {
    hide U32, U64, Valid, Aligned;
    assert SectionIs(b, o, j);
    if j > 0 {
      assert SectionIs(b, o, j - 1);
    }
    assert Raw(b, j) == RawEnd(o, j);
    RawGrows(o);
  }

  lemma FileCursor(b: Bytes, o: Object, j: nat)
    requires Writable(o) && Encodes(b, o) && j <= |o.symbols|
    ensures Cursor(b, j) == TextAt(o.symbols, j)
  {
    hide U32, U64, Valid;
    if j > 0 {
      assert SymbolIs(b, o, j - 1);
    }
  }

  lemma TextGrows(ss: seq<Symbol>, i: nat, j: nat)
    requires i <= j <= |ss|
    ensures TextAt(ss, i) <= TextAt(ss, j)
    decreases j - i
  {
    if i < j {
      TextGrows(ss, i, j - 1);
    }
  }

  lemma FileSymbol(b: Bytes, o: Object, j: nat)
    requires Writable(o) && Encodes(b, o) && j < |o.symbols|
    ensures SymbolOk(b, j)
  {
    hide U32, U64, Aligned, Zero;
    assert SymbolIs(b, o, j);
    FileCursor(b, o, j);
    assert ValidSymbol(o.sections, o.symbols[j]);
    TextGrows(o.symbols, j + 1, |o.symbols|);
  }

  lemma FileIsDecoded(b: Bytes, o: Object)
    requires Writable(o) && Encodes(b, o)
    ensures Decoded(b) == o
  {
    hide U32, U64, SectionIs, SymbolIs, RelocIs, Zero, SectionBytes, SymbolAt, RelocAt, Aligned;
    forall j | 0 <= j < 3
      ensures SectionBytes(b, j) == o.sections[j]
    {
      FileSectionBytes(b, o, j);
    }
    assert Decoded(b).sections == o.sections;
    forall j | 0 <= j < |o.symbols|
      ensures SymbolAt(b, j) == o.symbols[j]
    {
      FileSymbolAt(b, o, j);
    }
    assert Decoded(b).symbols == o.symbols;
    forall j | 0 <= j < |o.relocs|
      ensures RelocAt(b, j) == o.relocs[j]
    {
      FileRelocAt(b, o, j);
    }
    assert Decoded(b).relocs == o.relocs;
  }

  lemma FileSectionBytes(b: Bytes, o: Object, j: nat)
    requires Writable(o) && Encodes(b, o) && j < 3
    ensures SectionBytes(b, j) == o.sections[j]
  {
    hide U32, U64, Aligned, Valid, Zero;
    assert SectionIs(b, o, j);
  }

  lemma FileSymbolAt(b: Bytes, o: Object, j: nat)
    requires Writable(o) && Encodes(b, o) && j < |o.symbols|
    ensures SymbolAt(b, j) == o.symbols[j]
  {
    hide U32, U64, Aligned, Valid, Zero;
    assert SymbolIs(b, o, j);
  }

  lemma FileRelocAt(b: Bytes, o: Object, j: nat)
    requires Writable(o) && Encodes(b, o) && j < |o.relocs|
    ensures RelocAt(b, j) == o.relocs[j]
  {
    hide U32, U64, Aligned, Valid, Zero;
    assert RelocIs(b, o, j);
  }

  // ----- Writing into a buffer -----

  /** a and b differ at most between from and to. */
  ghost predicate Apart(a: Bytes, b: Bytes, from: nat, to: nat) {
    |a| == |b| && forall i :: 0 <= i < |a| && !(from <= i < to) ==> a[i] == b[i]
  }

  predicate Clear(from: nat, to: nat, low: nat, high: nat) {
    to <= low || high <= from
  }

  lemma U32Kept(a: Bytes, b: Bytes, from: nat, to: nat, at: nat)
    requires Apart(a, b, from, to) && Clear(from, to, at, at + 4)
    ensures U32(a, at) == U32(b, at)
  {
    if at + 4 <= |a| {
      assert a[at..at + 4] == b[at..at + 4];
    }
  }

  lemma U64Kept(a: Bytes, b: Bytes, from: nat, to: nat, at: nat)
    requires Apart(a, b, from, to) && Clear(from, to, at, at + 8)
    ensures U64(a, at) == U64(b, at)
  {
    U32Kept(a, b, from, to, at);
    U32Kept(a, b, from, to, at + 4);
  }

  lemma HoldsKept(a: Bytes, b: Bytes, from: nat, to: nat, at: nat, s: Bytes)
    requires Apart(a, b, from, to) && Holds(b, at, s) && Clear(from, to, at, at + |s|)
    ensures Holds(a, at, s)
  {
  }

  lemma ZeroKept(a: Bytes, b: Bytes, from: nat, to: nat, low: nat, high: nat)
    requires Apart(a, b, from, to) && Zero(b, low, high) && Clear(from, to, low, high)
    ensures Zero(a, low, high)
  {
  }

  method Put32(b: array<Byte>, at: nat, x: nat)
    requires x < W32 && at + 4 <= b.Length
    modifies b
    ensures U32(b[..], at) == x && Apart(b[..], old(b[..]), at, at + 4)
  {
    var y := x / 0x100;
    var z := y / 0x100;
    b[at], b[at + 1], b[at + 2], b[at + 3] := x % 0x100, y % 0x100, z % 0x100, z / 0x100;
    FourBytes(b[..], at);
    NumberOfFour(x % 0x100, y % 0x100, z % 0x100, z / 0x100);
  }

  /** A record, as the words at consecutive offsets. */
  method PutWords(b: array<Byte>, at: nat, words: seq<nat>)
    requires at + 4 * |words| <= b.Length
    requires forall k :: 0 <= k < |words| ==> words[k] < W32
    modifies b
    ensures WordsAt(b[..], at, words) && Apart(b[..], old(b[..]), at, at + 4 * |words|)
  {
    hide U32;
    var k := 0;
    while k < |words|
      invariant 0 <= k <= |words|
      invariant forall i :: 0 <= i < k ==> U32(b[..], at + 4 * i) == words[i]
      invariant Apart(b[..], old(b[..]), at, at + 4 * k)
    {
      ghost var was := b[..];
      Put32(b, at + 4 * k, words[k]);
      forall i | 0 <= i < k
        ensures U32(b[..], at + 4 * i) == words[i]
      {
        U32Kept(b[..], was, at + 4 * k, at + 4 * k + 4, at + 4 * i);
      }
      k := k + 1;
    }
  }

  method PutBytes(b: array<Byte>, at: nat, s: Bytes)
    requires at + |s| <= b.Length
    modifies b
    ensures Holds(b[..], at, s) && Apart(b[..], old(b[..]), at, at + |s|)
  {
    var i := 0;
    while i < |s|
      invariant 0 <= i <= |s|
      invariant forall k :: 0 <= k < i ==> b[at + k] == s[k]
      invariant Apart(b[..], old(b[..]), at, at + i)
    {
      b[at + i] := s[i];
      i := i + 1;
    }
  }

  function Low(x: nat): (r: nat)
    ensures r < W32
  {
    x % W32
  }

  function High(x: nat): (r: nat)
    ensures r < W32
  {
    x / W32 % W32
  }

  lemma Halves(b: Bytes, at: nat, x: nat)
    requires x < W64 && U32(b, at) == Low(x) && U32(b, at + 4) == High(x)
    ensures U64(b, at) == x
  {
  }

  // ----- The writer -----

  /** The header, the first sections, symbols and relocations and all padding are in place. */
  ghost predicate Stage(b: Bytes, o: Object, sections: nat, symbols: nat, relocs: nat)
    requires |o.sections| == 3 && sections <= 3 && symbols <= |o.symbols| && relocs <= |o.relocs|
  {
    && |b| == FileSize(o) && HeaderIs(b, o) && Zero(b, TablesEnd(o), RawEnd(o, 0))
    && (forall j :: 0 <= j < 3 ==> Zero(b, RawEnd(o, j), SectionAt(o, j)))
    && (forall j :: 0 <= j < sections ==> SectionIs(b, o, j))
    && (forall j :: 0 <= j < symbols ==> SymbolIs(b, o, j))
    && (forall j :: 0 <= j < relocs ==> RelocIs(b, o, j))
  }

  /** The bytes between from and to are still to be written. */
  ghost predicate Open(o: Object, sections: nat, symbols: nat, relocs: nat, from: nat, to: nat)
    requires |o.sections| == 3 && sections <= 3 && symbols <= |o.symbols| && relocs <= |o.relocs|
  {
    && 96 + 48 * sections <= from
    && Clear(from, to, SYMBOLS_AT, SYMBOLS_AT + 64 * symbols) && Clear(from, to, RelocsAt(o), RelocsAt(o) + 40 * relocs)
    && Clear(from, to, TextsAt(o), TextsAt(o) + TextAt(o.symbols, symbols)) && Clear(from, to, TablesEnd(o), SectionAt(o, 0))
    && (forall j :: 0 <= j < sections ==> Clear(from, to, SectionAt(o, j), RawEnd(o, j + 1)))
    && (forall j :: 0 <= j < 3 ==> Clear(from, to, RawEnd(o, j), SectionAt(o, j)))
  }

  lemma HeaderKept(a: Bytes, b: Bytes, o: Object, from: nat, to: nat)
    requires |o.sections| == 3 && 96 <= from && Apart(a, b, from, to) && HeaderIs(b, o)
    ensures HeaderIs(a, o)
  {
    hide U32, U64;
    HoldsKept(a, b, from, to, 0, MAGIC);
    forall at: nat | at <= 92
      ensures U32(a, at) == U32(b, at)
    {
      U32Kept(a, b, from, to, at);
    }
    forall at: nat | at <= 88
      ensures U64(a, at) == U64(b, at)
    {
      U64Kept(a, b, from, to, at);
    }
  }

  lemma SectionKept(a: Bytes, b: Bytes, o: Object, j: nat, from: nat, to: nat)
    requires |o.sections| == 3 && j < 3 && Apart(a, b, from, to) && SectionIs(b, o, j)
    requires Clear(from, to, 96 + 48 * j, 144 + 48 * j) && Clear(from, to, RawEnd(o, j), SectionAt(o, j))
    requires Clear(from, to, SectionAt(o, j), RawEnd(o, j + 1))
    ensures SectionIs(a, o, j)
  {
    hide U32, U64, Aligned;
    var at := 96 + 48 * j;
    U32Kept(a, b, from, to, at);
    U32Kept(a, b, from, to, at + 4);
    U64Kept(a, b, from, to, at + 8);
    U64Kept(a, b, from, to, at + 16);
    U64Kept(a, b, from, to, at + 24);
    U64Kept(a, b, from, to, at + 32);
    U64Kept(a, b, from, to, at + 40);
    ZeroKept(a, b, from, to, RawEnd(o, j), SectionAt(o, j));
    HoldsKept(a, b, from, to, SectionAt(o, j), o.sections[j]);
  }

  lemma SymbolKept(a: Bytes, b: Bytes, o: Object, j: nat, from: nat, to: nat)
    requires j < |o.symbols| && Apart(a, b, from, to) && SymbolIs(b, o, j)
    requires Clear(from, to, SYMBOLS_AT + 64 * j, SYMBOLS_AT + 64 * j + 64)
    requires Clear(from, to, TextsAt(o) + TextAt(o.symbols, j), TextsAt(o) + TextAt(o.symbols, j + 1))
    ensures SymbolIs(a, o, j)
  {
    hide U32, U64;
    var at, text, s := SYMBOLS_AT + 64 * j, TextsAt(o) + TextAt(o.symbols, j), o.symbols[j];
    forall p: nat | at <= p <= at + 60
      ensures U32(a, p) == U32(b, p)
    {
      U32Kept(a, b, from, to, p);
    }
    forall p: nat | at <= p <= at + 56
      ensures U64(a, p) == U64(b, p)
    {
      U64Kept(a, b, from, to, p);
    }
    HoldsKept(a, b, from, to, text, s.name);
    HoldsKept(a, b, from, to, text + |s.name|, s.contract);
  }

  lemma RelocKept(a: Bytes, b: Bytes, o: Object, j: nat, from: nat, to: nat)
    requires j < |o.relocs| && Apart(a, b, from, to) && RelocIs(b, o, j)
    requires Clear(from, to, RelocsAt(o) + 40 * j, RelocsAt(o) + 40 * j + 40)
    ensures RelocIs(a, o, j)
  {
    hide U32, U64;
    var at := RelocsAt(o) + 40 * j;
    forall p: nat | at <= p <= at + 36
      ensures U32(a, p) == U32(b, p)
    {
      U32Kept(a, b, from, to, p);
    }
    forall p: nat | at <= p <= at + 32
      ensures U64(a, p) == U64(b, p)
    {
      U64Kept(a, b, from, to, p);
    }
  }

  /** Writing where nothing is yet keeps what is there. */
  lemma StageKept(a: Bytes, b: Bytes, o: Object, sections: nat, symbols: nat, relocs: nat, from: nat, to: nat)
    requires |o.sections| == 3 && sections <= 3 && symbols <= |o.symbols| && relocs <= |o.relocs|
    requires Stage(b, o, sections, symbols, relocs) && Apart(a, b, from, to) && Open(o, sections, symbols, relocs, from, to)
    ensures Stage(a, o, sections, symbols, relocs)
  {
    hide SectionIs, SymbolIs, RelocIs, HeaderIs, Aligned;
    HeaderKept(a, b, o, from, to);
    ZeroKept(a, b, from, to, TablesEnd(o), RawEnd(o, 0));
    forall j | 0 <= j < 3
      ensures Zero(a, RawEnd(o, j), SectionAt(o, j))
    {
      ZeroKept(a, b, from, to, RawEnd(o, j), SectionAt(o, j));
    }
    forall j | 0 <= j < sections
      ensures SectionIs(a, o, j)
    {
      SectionKept(a, b, o, j, from, to);
    }
    forall j | 0 <= j < symbols
      ensures SymbolIs(a, o, j)
    {
      TextGrows(o.symbols, j + 1, symbols);
      SymbolKept(a, b, o, j, from, to);
    }
    forall j | 0 <= j < relocs
      ensures RelocIs(a, o, j)
    {
      RelocKept(a, b, o, j, from, to);
    }
  }

  function HeaderWords(o: Object): seq<nat>
    requires |o.sections| == 3
  {
    [1, o.target, 1, 3, |o.symbols|, |o.relocs|, 96, 0, SYMBOLS_AT, 0, RelocsAt(o), 0, TextsAt(o), 0,
     TextAt(o.symbols, |o.symbols|), 0, RawEnd(o, 0), 0, FileSize(o), 0, o.entry, 0]
  }

  lemma HeaderWordsFit(o: Object)
    requires Writable(o)
    ensures forall k :: 0 <= k < |HeaderWords(o)| ==> HeaderWords(o)[k] < W32
  {
    hide Aligned;
    RawGrows(o);
  }

  /** The words of a record that starts at the given offset. */
  ghost predicate WordsAt(b: Bytes, at: nat, words: seq<nat>) {
    forall k :: 0 <= k < |words| ==> U32(b, at + 4 * k) == words[k]
  }

  method PutHeader(b: array<Byte>, o: Object)
    requires Writable(o) && b.Length == FileSize(o) && Zero(b[..], 0, b.Length)
    modifies b
    ensures Stage(b[..], o, 0, 0, 0)
  {
    hide HeaderIs, Aligned, U32, Valid;
    RawGrows(o);
    PutBytes(b, 0, MAGIC);
    ghost var named := b[..];
    HeaderWordsFit(o);
    PutWords(b, 8, HeaderWords(o));
    HoldsKept(b[..], named, 8, 96, 0, MAGIC);
    HeaderWritten(b[..], o);
  }

  lemma HeaderWritten(b: Bytes, o: Object)
    requires |o.sections| == 3 && Holds(b, 0, MAGIC) && WordsAt(b, 8, HeaderWords(o))
    ensures HeaderIs(b, o)
  {
    hide U32, Aligned, RawEnd;
    var words := HeaderWords(o);
    assert words[0] == 1 && words[1] == o.target && words[2] == 1 && words[3] == 3 && words[4] == |o.symbols|;
    assert words[5] == |o.relocs| && words[6] == 96 && words[7] == 0 && words[8] == SYMBOLS_AT && words[9] == 0;
    assert words[10] == RelocsAt(o) && words[11] == 0 && words[12] == TextsAt(o) && words[13] == 0 && words[15] == 0;
    assert words[14] == TextAt(o.symbols, |o.symbols|) && words[16] == RawEnd(o, 0) && words[17] == 0;
    assert words[18] == FileSize(o) && words[19] == 0 && words[20] == o.entry && words[21] == 0;
  }

  function SectionWords(o: Object, j: nat): seq<nat>
    requires |o.sections| == 3 && j < 3
  {
    [j + 1, Permissions(j), Alignment(j), 0, |o.sections[j]|, 0, SectionAt(o, j), 0, 0, 0, 0, 0]
  }

  lemma SectionWritten(b: Bytes, o: Object, j: nat)
    requires |o.sections| == 3 && j < 3 && WordsAt(b, 96 + 48 * j, SectionWords(o, j))
    requires Zero(b, RawEnd(o, j), SectionAt(o, j)) && Holds(b, SectionAt(o, j), o.sections[j])
    ensures SectionIs(b, o, j)
  {
    hide U32, Aligned, RawEnd;
    var at, words := 96 + 48 * j, SectionWords(o, j);
    assert words[0] == j + 1 && words[1] == Permissions(j) && words[2] == Alignment(j) && words[3] == 0;
    assert words[4] == |o.sections[j]| && words[5] == 0 && words[6] == SectionAt(o, j) && words[7] == 0;
    assert words[8] == 0 && words[9] == 0 && words[10] == 0 && words[11] == 0;
  }

  function SymbolWords(o: Object, j: nat): seq<nat>
    requires j < |o.symbols|
  {
    var s, text := o.symbols[j], TextAt(o.symbols, j);
    [text, |s.name|, s.section, s.flags, Low(s.offset), High(s.offset), Low(s.size), High(s.size),
     text + |s.name|, |s.contract|, 1, 0, 0, 0, 0, 0]
  }

  lemma SymbolWritten(b: Bytes, o: Object, j: nat)
    requires j < |o.symbols| && WordsAt(b, SYMBOLS_AT + 64 * j, SymbolWords(o, j))
    requires o.symbols[j].offset < W64 && o.symbols[j].size < W64
    requires Holds(b, TextsAt(o) + TextAt(o.symbols, j), o.symbols[j].name)
    requires Holds(b, TextsAt(o) + TextAt(o.symbols, j) + |o.symbols[j].name|, o.symbols[j].contract)
    ensures SymbolIs(b, o, j)
  {
    hide U32, TextsAt, TextAt, Low, High;
    var at, words := SYMBOLS_AT + 64 * j, SymbolWords(o, j);
    var s, text := o.symbols[j], TextAt(o.symbols, j);
    assert words[0] == text && words[1] == |s.name| && words[2] == s.section && words[3] == s.flags;
    assert words[4] == Low(s.offset) && words[5] == High(s.offset) && words[6] == Low(s.size) && words[7] == High(s.size);
    assert words[8] == text + |s.name| && words[9] == |s.contract| && words[10] == 1 && words[11] == 0;
    assert words[12] == 0 && words[13] == 0 && words[14] == 0 && words[15] == 0;
    Halves(b, at + 16, o.symbols[j].offset);
    Halves(b, at + 24, o.symbols[j].size);
  }

  function RelocWords(r: Reloc): seq<nat> {
    [r.section, r.kind, Low(r.offset), High(r.offset), r.target, 0, Low(Word(r.addend)), High(Word(r.addend)), 0, 0]
  }

  lemma RelocWritten(b: Bytes, o: Object, j: nat)
    requires j < |o.relocs| && o.relocs[j].offset < W64 && WordsAt(b, RelocsAt(o) + 40 * j, RelocWords(o.relocs[j]))
    ensures RelocIs(b, o, j)
  {
    hide U32, Low, High;
    var at, r := RelocsAt(o) + 40 * j, o.relocs[j];
    var words := RelocWords(r);
    assert words[0] == r.section && words[1] == r.kind && words[2] == Low(r.offset) && words[3] == High(r.offset);
    assert words[4] == r.target && words[5] == 0 && words[6] == Low(Word(r.addend)) && words[7] == High(Word(r.addend));
    assert words[8] == 0 && words[9] == 0;
    Halves(b, at + 8, r.offset);
    Halves(b, at + 24, Word(r.addend));
  }

  // ----- One record at a time -----

  method PutSection(b: array<Byte>, o: Object, j: nat)
    requires Writable(o) && j < 3 && b.Length == FileSize(o) && Stage(b[..], o, j, 0, 0)
    modifies b
    ensures b.Length == FileSize(o) && Stage(b[..], o, j + 1, 0, 0)
  {
    hide Stage, Open, SectionIs, Aligned, U32, Valid;
    ghost var before := b[..];
    SectionRoom(o, j);
    PutWords(b, 96 + 48 * j, SectionWords(o, j));
    ghost var named := b[..];
    StageKept(named, before, o, j, 0, 0, 96 + 48 * j, 144 + 48 * j);
    PutBytes(b, SectionAt(o, j), o.sections[j]);
    SectionPlaced(b[..], named, o, j);
  }

  lemma SectionRoom(o: Object, j: nat)
    requires Writable(o) && j < 3
    ensures 240 <= FileSize(o) && SectionAt(o, j) + |o.sections[j]| == RawEnd(o, j + 1) <= FileSize(o) < W32
    ensures forall k :: 0 <= k < 12 ==> SectionWords(o, j)[k] < W32
    ensures Open(o, j, 0, 0, 96 + 48 * j, 144 + 48 * j) && Open(o, j, 0, 0, SectionAt(o, j), RawEnd(o, j + 1))
  {
    hide Aligned, Valid, TextAt, RawEnd, Open;
    RawGrows(o);
    RawNext(o, j);
    RawOrder(o, j + 1, 3);
    RawOrder(o, j, 3);
    SectionOpen(o, j, 96 + 48 * j, 144 + 48 * j);
    SectionOpen(o, j, SectionAt(o, j), RawEnd(o, j + 1));
  }

  lemma RawOrder(o: Object, i: nat, k: nat)
    requires |o.sections| == 3 && i <= k <= 3
    ensures RawEnd(o, 0) <= RawEnd(o, i) <= RawEnd(o, k) && RawEnd(o, i) <= SectionAt(o, i)
    ensures i < k ==> SectionAt(o, i) <= RawEnd(o, i + 1) <= RawEnd(o, k)
    decreases k, k - i
  {
    if i < k {
      RawOrder(o, i, k - 1);
      RawNext(o, k - 1);
    } else if i > 0 {
      RawOrder(o, i - 1, i - 1);
      RawNext(o, i - 1);
    }
  }

  lemma SectionOpen(o: Object, j: nat, from: nat, to: nat)
    requires |o.sections| == 3 && j < 3 && 96 + 48 * j <= from
    requires to <= 240 || (SectionAt(o, j) <= from && to <= RawEnd(o, j + 1))
    ensures Open(o, j, 0, 0, from, to)
  {
    hide Aligned, RawEnd, SectionAt;
    RawNext(o, 0);
    RawOrder(o, j, 3);
    forall i | 0 <= i < j
      ensures Clear(from, to, SectionAt(o, i), RawEnd(o, i + 1))
    {
      RawOrder(o, i, j);
      RawOrder(o, i + 1, j);
    }
    forall i | 0 <= i < 3
      ensures Clear(from, to, RawEnd(o, i), SectionAt(o, i))
    {
      RawOrder(o, i, i);
      if i < j {
        RawOrder(o, i, j);
      } else if i > j {
        RawOrder(o, j + 1, i);
      }
    }
  }

  lemma RawNext(o: Object, j: nat)
    requires |o.sections| == 3 && j < 3
    ensures RawEnd(o, j + 1) == SectionAt(o, j) + |o.sections[j]|
    ensures TablesEnd(o) <= RawEnd(o, 0) == SectionAt(o, 0)
  {
    hide Multiple;
    MultipleIs(TablesEnd(o), 16);
    MultipleIs(RawEnd(o, 0), 16);
  }

  lemma WordsKept(a: Bytes, b: Bytes, at: nat, words: seq<nat>, from: nat, to: nat)
    requires WordsAt(b, at, words) && Apart(a, b, from, to) && Clear(from, to, at, at + 4 * |words|)
    ensures WordsAt(a, at, words)
  {
    hide U32;
    forall k | 0 <= k < |words|
      ensures U32(a, at + 4 * k) == words[k]
    {
      U32Kept(a, b, from, to, at + 4 * k);
    }
  }

  lemma SectionPlaced(a: Bytes, b: Bytes, o: Object, j: nat)
    requires Writable(o) && j < 3 && Stage(b, o, j, 0, 0) && WordsAt(b, 96 + 48 * j, SectionWords(o, j))
    requires Apart(a, b, SectionAt(o, j), RawEnd(o, j + 1)) && Holds(a, SectionAt(o, j), o.sections[j])
    ensures Stage(a, o, j + 1, 0, 0)
  {
    hide U32, WordsAt, SectionIs, Valid, Aligned, HeaderIs;
    RawGrows(o);
    SectionRoom(o, j);
    StageKept(a, b, o, j, 0, 0, SectionAt(o, j), RawEnd(o, j + 1));
    WordsKept(a, b, 96 + 48 * j, SectionWords(o, j), SectionAt(o, j), RawEnd(o, j + 1));
    SectionWritten(a, o, j);
  }

  lemma SymbolRoom(o: Object, j: nat)
    requires Writable(o) && j < |o.symbols|
    ensures var at, text := SYMBOLS_AT + 64 * j, TextsAt(o) + TextAt(o.symbols, j);
            && at + 64 <= RelocsAt(o) <= TextsAt(o) && |SymbolWords(o, j)| == 16
            && text + |o.symbols[j].name| + |o.symbols[j].contract| <= TablesEnd(o) <= SectionAt(o, 0) <= FileSize(o) < W32
            && TextAt(o.symbols, j + 1) == TextAt(o.symbols, j) + |o.symbols[j].name| + |o.symbols[j].contract|
            && o.symbols[j].offset < W64 && o.symbols[j].size < W64
            && (forall k :: 0 <= k < 16 ==> SymbolWords(o, j)[k] < W32)
            && Open(o, 3, j, 0, at, at + 64) && Open(o, 3, j, 0, text, text + |o.symbols[j].name| + |o.symbols[j].contract|)
  {
    hide Aligned, RawEnd, Open, SymbolWords, ValidText, Role, Imported, Exported;
    RawGrows(o);
    RawNext(o, 0);
    TextGrows(o.symbols, j + 1, |o.symbols|);
    SymbolWordsFit(o, j);
    assert ValidSymbol(o.sections, o.symbols[j]);
    assert TextAt(o.symbols, j + 1) == TextAt(o.symbols, j) + |o.symbols[j].name| + |o.symbols[j].contract|;
    TablesOpen(o, j, 0, SYMBOLS_AT + 64 * j, SYMBOLS_AT + 64 * j + 64);
    TablesOpen(o, j, 0, TextsAt(o) + TextAt(o.symbols, j), TextsAt(o) + TextAt(o.symbols, j + 1));
  }

  lemma SymbolWordsFit(o: Object, j: nat)
    requires Writable(o) && j < |o.symbols|
    ensures |SymbolWords(o, j)| == 16 && forall k :: 0 <= k < 16 ==> SymbolWords(o, j)[k] < W32
  {
    hide Aligned, RawEnd, Low, High, Role, Imported, Exported;
    RawGrows(o);
    TextGrows(o.symbols, j + 1, |o.symbols|);
    assert ValidSymbol(o.sections, o.symbols[j]);
  }

  /** Behind the tables filled so far and before the payload. */
  lemma TablesOpen(o: Object, symbols: nat, relocs: nat, from: nat, to: nat)
    requires |o.sections| == 3 && symbols <= |o.symbols| && relocs <= |o.relocs|
    requires SYMBOLS_AT + 64 * symbols <= from && to <= TablesEnd(o)
    requires Clear(from, to, RelocsAt(o), RelocsAt(o) + 40 * relocs)
    requires Clear(from, to, TextsAt(o), TextsAt(o) + TextAt(o.symbols, symbols))
    ensures Open(o, 3, symbols, relocs, from, to)
  {
    hide Aligned, RawEnd, SectionAt, TextAt;
    RawNext(o, 0);
    forall i | 0 <= i < 3
      ensures Clear(from, to, RawEnd(o, i), SectionAt(o, i)) && Clear(from, to, SectionAt(o, i), RawEnd(o, i + 1))
    {
      RawOrder(o, i, i);
    }
  }

  method PutSymbol(b: array<Byte>, o: Object, j: nat)
    requires Writable(o) && j < |o.symbols| && b.Length == FileSize(o) && Stage(b[..], o, 3, j, 0)
    modifies b
    ensures b.Length == FileSize(o) && Stage(b[..], o, 3, j + 1, 0)
  {
    hide Stage, Open, SymbolIs, Aligned, U32, Valid, RawEnd;
    var at, text, s := SYMBOLS_AT + 64 * j, TextsAt(o) + TextAt(o.symbols, j), o.symbols[j];
    ghost var before := b[..];
    SymbolRoom(o, j);
    PutWords(b, at, SymbolWords(o, j));
    ghost var record := b[..];
    StageKept(record, before, o, 3, j, 0, at, at + 64);
    PutBytes(b, text, s.name);
    ghost var named := b[..];
    PutBytes(b, text + |s.name|, s.contract);
    HoldsKept(b[..], named, text + |s.name|, text + |s.name| + |s.contract|, text, s.name);
    SymbolPlaced(b[..], record, o, j);
  }

  lemma SymbolPlaced(a: Bytes, b: Bytes, o: Object, j: nat)
    requires Writable(o) && j < |o.symbols| && Stage(b, o, 3, j, 0) && WordsAt(b, SYMBOLS_AT + 64 * j, SymbolWords(o, j))
    requires Apart(a, b, TextsAt(o) + TextAt(o.symbols, j), TextsAt(o) + TextAt(o.symbols, j + 1))
    requires Holds(a, TextsAt(o) + TextAt(o.symbols, j), o.symbols[j].name)
    requires Holds(a, TextsAt(o) + TextAt(o.symbols, j) + |o.symbols[j].name|, o.symbols[j].contract)
    ensures Stage(a, o, 3, j + 1, 0)
  {
    hide U32, WordsAt, SymbolIs, SectionIs, Valid, Aligned, HeaderIs, Open;
    SymbolRoom(o, j);
    var from, to := TextsAt(o) + TextAt(o.symbols, j), TextsAt(o) + TextAt(o.symbols, j + 1);
    StageKept(a, b, o, 3, j, 0, from, to);
    WordsKept(a, b, SYMBOLS_AT + 64 * j, SymbolWords(o, j), from, to);
    SymbolWritten(a, o, j);
  }

  lemma RelocRoom(o: Object, j: nat)
    requires Writable(o) && j < |o.relocs|
    ensures RelocsAt(o) + 40 * j + 40 <= TextsAt(o) <= FileSize(o) && |RelocWords(o.relocs[j])| == 10
    ensures o.relocs[j].offset < W64 && forall k :: 0 <= k < 10 ==> RelocWords(o.relocs[j])[k] < W32
    ensures Open(o, 3, |o.symbols|, j, RelocsAt(o) + 40 * j, RelocsAt(o) + 40 * j + 40)
  {
    hide Aligned, RawEnd, Open, Low, High;
    RawGrows(o);
    RawNext(o, 0);
    assert ValidReloc(o.sections, |o.symbols|, o.relocs[j]);
    TablesOpen(o, |o.symbols|, j, RelocsAt(o) + 40 * j, RelocsAt(o) + 40 * j + 40);
  }

  method PutReloc(b: array<Byte>, o: Object, j: nat)
    requires Writable(o) && j < |o.relocs| && b.Length == FileSize(o) && Stage(b[..], o, 3, |o.symbols|, j)
    modifies b
    ensures b.Length == FileSize(o) && Stage(b[..], o, 3, |o.symbols|, j + 1)
  {
    hide Open, SymbolIs, SectionIs, RelocIs, HeaderIs, Aligned, U32, Valid, RawEnd, WordsAt;
    ghost var before := b[..];
    RelocRoom(o, j);
    PutWords(b, RelocsAt(o) + 40 * j, RelocWords(o.relocs[j]));
    StageKept(b[..], before, o, 3, |o.symbols|, j, RelocsAt(o) + 40 * j, RelocsAt(o) + 40 * j + 40);
    RelocWritten(b[..], o, j);
  }

  // ----- Whole files -----

  /** The limits on names and contracts and on the payload, checked before anything is written. */
  method Room(o: Object) returns (ok: bool)
    requires |o.sections| == 3
    ensures ok == (FileSize(o) <= MAX_FILE)
  {
    hide Aligned;
    RawGrows(o);
    var strings, j := 0, 0;
    while j < |o.symbols|
      invariant 0 <= j <= |o.symbols| && strings == TextAt(o.symbols, j) <= MAX_FILE
    {
      if |o.symbols[j].name| + |o.symbols[j].contract| > MAX_FILE - strings {
        TextGrows(o.symbols, j + 1, |o.symbols|);
        return false;
      }
      strings := strings + |o.symbols[j].name| + |o.symbols[j].contract|;
      j := j + 1;
    }
    if TextsAt(o) > MAX_FILE || strings > MAX_FILE - TextsAt(o) {
      return false;
    }
    var size, k := Aligned(TextsAt(o) + strings), 0;
    while k < 3
      invariant 0 <= k <= 3 && size == RawEnd(o, k)
      invariant k > 0 ==> size <= MAX_FILE
    {
      size := Aligned(size);
      if size > MAX_FILE || |o.sections[k]| > MAX_FILE - size {
        return false;
      }
      size := size + |o.sections[k]|;
      k := k + 1;
    }
    ok := true;
  }

  /** Writing succeeds exactly on writable objects, and gives the file of the object. */
  method Write(o: Object) returns (r: Option<Bytes>)
    ensures r.Some? <==> Writable(o)
    ensures r.Some? ==> Encodes(r.value, o)
  {
    hide Stage, Valid;
    var ok := Validate(o);
    if !ok {
      return None;
    }
    SectionsOfValid(o);
    ok := Room(o);
    if !ok {
      return None;
    }
    var b := new Byte[FileSize(o)](_ => 0);
    PutHeader(b, o);
    var j := 0;
    while j < 3
      invariant 0 <= j <= 3 && Stage(b[..], o, j, 0, 0)
    {
      PutSection(b, o, j);
      j := j + 1;
    }
    j := 0;
    while j < |o.symbols|
      invariant 0 <= j <= |o.symbols| && Stage(b[..], o, 3, j, 0)
    {
      PutSymbol(b, o, j);
      j := j + 1;
    }
    j := 0;
    while j < |o.relocs|
      invariant 0 <= j <= |o.relocs| && Stage(b[..], o, 3, |o.symbols|, j)
    {
      PutReloc(b, o, j);
      j := j + 1;
    }
    StageDone(b[..], o);
    r := Some(b[..]);
  }

  lemma SectionsOfValid(o: Object)
    requires Valid(o)
    ensures |o.sections| == 3
  {
  }

  lemma StageDone(b: Bytes, o: Object)
    requires |o.sections| == 3 && Stage(b, o, 3, |o.symbols|, |o.relocs|)
    ensures Encodes(b, o)
  {
  }

  // ----- The format is canonical -----

  ghost predicate Same(a: Bytes, b: Bytes, low: nat, high: nat) {
    |a| == |b| && forall i :: low <= i < high && i < |a| ==> a[i] == b[i]
  }

  lemma Digit(a: Byte, x: int, b: Byte, y: int)
    requires a + 0x100 * x == b + 0x100 * y
    ensures a == b && x == y
  {
  }

  lemma SameU32(a: Bytes, b: Bytes, at: nat)
    requires at + 4 <= |a| == |b| && U32(a, at) == U32(b, at)
    ensures Same(a, b, at, at + 4)
  {
    FourBytes(a, at);
    FourBytes(b, at);
    NumberOfFour(a[at], a[at + 1], a[at + 2], a[at + 3]);
    NumberOfFour(b[at], b[at + 1], b[at + 2], b[at + 3]);
    hide Number;
    var a1: nat, a2: nat, a3: nat := a[at + 1], a[at + 2], a[at + 3];
    var b1: nat, b2: nat, b3: nat := b[at + 1], b[at + 2], b[at + 3];
    Digit(a[at], a1 + 0x100 * (a2 + 0x100 * a3), b[at], b1 + 0x100 * (b2 + 0x100 * b3));
    Digit(a[at + 1], a2 + 0x100 * a3, b[at + 1], b2 + 0x100 * b3);
    Digit(a[at + 2], a3, b[at + 2], b3);
  }

  lemma SameU64(a: Bytes, b: Bytes, at: nat)
    requires at + 8 <= |a| == |b| && U64(a, at) == U64(b, at)
    ensures Same(a, b, at, at + 8)
  {
    hide U32;
    U32Bound(a, at);
    U32Bound(b, at);
    SameU32(a, b, at);
    SameU32(a, b, at + 4);
  }

  lemma SameHeader(a: Bytes, b: Bytes, o: Object)
    requires |o.sections| == 3 && 96 <= |a| == |b| && HeaderIs(a, o) && HeaderIs(b, o)
    ensures Same(a, b, 0, 96)
  {
    hide U32, U64, Aligned;
    assert Same(a, b, 0, 8) by {
      assert forall i :: 0 <= i < 8 ==> a[i] == a[0..8][i] && b[i] == b[0..8][i];
    }
    SameU32(a, b, 8);
    SameU32(a, b, 12);
    SameU32(a, b, 16);
    SameU32(a, b, 20);
    SameU32(a, b, 24);
    SameU32(a, b, 28);
    SameU64(a, b, 32);
    SameU64(a, b, 40);
    SameU64(a, b, 48);
    SameU64(a, b, 56);
    SameU64(a, b, 64);
    SameU64(a, b, 72);
    SameU64(a, b, 80);
    SameU32(a, b, 88);
    SameU32(a, b, 92);
  }

  lemma SameHolds(a: Bytes, b: Bytes, at: nat, s: Bytes)
    requires |a| == |b| && Holds(a, at, s) && Holds(b, at, s)
    ensures Same(a, b, at, at + |s|)
  {
    assert forall i :: at <= i < at + |s| ==> a[i] == a[at..at + |s|][i - at] && b[i] == b[at..at + |s|][i - at];
  }

  lemma SameSection(a: Bytes, b: Bytes, o: Object, j: nat)
    requires Writable(o) && j < 3 && 240 <= |a| == |b| && SectionIs(a, o, j) && SectionIs(b, o, j)
    ensures Same(a, b, 96 + 48 * j, 144 + 48 * j) && Same(a, b, RawEnd(o, j), RawEnd(o, j + 1))
  {
    hide U32, U64, Aligned, Valid;
    var at := 96 + 48 * j;
    SameU32(a, b, at);
    SameU32(a, b, at + 4);
    SameU64(a, b, at + 8);
    SameU64(a, b, at + 16);
    SameU64(a, b, at + 24);
    SameU64(a, b, at + 32);
    SameU64(a, b, at + 40);
    RawNext(o, j);
    SameHolds(a, b, SectionAt(o, j), o.sections[j]);
  }

  lemma SameSymbol(a: Bytes, b: Bytes, o: Object, j: nat)
    requires j < |o.symbols| && SYMBOLS_AT + 64 * j + 64 <= |a| == |b| && SymbolIs(a, o, j) && SymbolIs(b, o, j)
    ensures Same(a, b, SYMBOLS_AT + 64 * j, SYMBOLS_AT + 64 * j + 64)
    ensures Same(a, b, TextsAt(o) + TextAt(o.symbols, j), TextsAt(o) + TextAt(o.symbols, j + 1))
  {
    hide U32, U64, TextsAt;
    var at, text := SYMBOLS_AT + 64 * j, TextsAt(o) + TextAt(o.symbols, j);
    SameU32(a, b, at);
    SameU32(a, b, at + 4);
    SameU32(a, b, at + 8);
    SameU32(a, b, at + 12);
    SameU64(a, b, at + 16);
    SameU64(a, b, at + 24);
    SameU32(a, b, at + 32);
    SameU32(a, b, at + 36);
    SameU32(a, b, at + 40);
    SameU32(a, b, at + 44);
    SameU64(a, b, at + 48);
    SameU64(a, b, at + 56);
    SameHolds(a, b, text, o.symbols[j].name);
    SameHolds(a, b, text + |o.symbols[j].name|, o.symbols[j].contract);
  }

  lemma SameReloc(a: Bytes, b: Bytes, o: Object, j: nat)
    requires j < |o.relocs| && RelocsAt(o) + 40 * j + 40 <= |a| == |b| && RelocIs(a, o, j) && RelocIs(b, o, j)
    ensures Same(a, b, RelocsAt(o) + 40 * j, RelocsAt(o) + 40 * j + 40)
  {
    hide U32, U64, RelocsAt;
    var at := RelocsAt(o) + 40 * j;
    SameU32(a, b, at);
    SameU32(a, b, at + 4);
    SameU64(a, b, at + 8);
    SameU32(a, b, at + 16);
    SameU32(a, b, at + 20);
    SameU64(a, b, at + 24);
    SameU64(a, b, at + 32);
  }

  lemma SameSymbols(a: Bytes, b: Bytes, o: Object, n: nat)
    requires |o.sections| == 3 && Encodes(a, o) && Encodes(b, o) && n <= |o.symbols|
    ensures Same(a, b, SYMBOLS_AT, SYMBOLS_AT + 64 * n) && Same(a, b, TextsAt(o), TextsAt(o) + TextAt(o.symbols, n))
  {
    hide HeaderIs, SectionIs, SymbolIs, RelocIs, Aligned, RawEnd;
    RawGrows(o);
    if n > 0 {
      SameSymbols(a, b, o, n - 1);
      SameSymbol(a, b, o, n - 1);
    }
  }

  lemma SameRelocs(a: Bytes, b: Bytes, o: Object, n: nat)
    requires |o.sections| == 3 && Encodes(a, o) && Encodes(b, o) && n <= |o.relocs|
    ensures Same(a, b, RelocsAt(o), RelocsAt(o) + 40 * n)
  {
    hide HeaderIs, SectionIs, SymbolIs, RelocIs, Aligned, RawEnd;
    RawGrows(o);
    if n > 0 {
      SameRelocs(a, b, o, n - 1);
      SameReloc(a, b, o, n - 1);
    }
  }

  /** An object has one file. */
  lemma OneFile(a: Bytes, b: Bytes, o: Object)
    requires Writable(o) && Encodes(a, o) && Encodes(b, o)
    ensures a == b
  {
    hide HeaderIs, SectionIs, SymbolIs, RelocIs, Aligned, RawEnd, Valid;
    RawGrows(o);
    SameHeader(a, b, o);
    SameSection(a, b, o, 0);
    SameSection(a, b, o, 1);
    SameSection(a, b, o, 2);
    SameSymbols(a, b, o, |o.symbols|);
    SameRelocs(a, b, o, |o.relocs|);
    assert Same(a, b, TablesEnd(o), RawEnd(o, 0));
    assert Same(a, b, 0, FileSize(o));
  }

  /** What is read and written again is the same file, and what is written and read again is the
      same object. */
  method Rewrite(b: Bytes) returns (c: Option<Bytes>)
    ensures c.Some? ==> c.value == b
    ensures c.None? ==> forall o :: Writable(o) ==> !Encodes(b, o)
  {
    hide Encodes, Writable;
    var o := Read(b);
    if o.None? {
      return None;
    }
    c := Write(o.value);
    OneFile(c.value, b, o.value);
  }

  method Reread(o: Object) returns (r: Option<Object>)
    ensures r == if Writable(o) then Some(o) else None
  {
    hide Encodes, Writable;
    var b := Write(o);
    if b.None? {
      return None;
    }
    r := Read(b.value);
    FileIsDecoded(b.value, o);
    FileIsDecoded(b.value, r.value);
  }
}
