/** What it means to link objects. */
module LinkSpec {
  import opened Sorting
  import opened Objects

  const LINK_BYTES: nat := 64 * 1024 * 1024
  const MAX_UNITS: nat := 64

  // ----- Placement -----

  function Align16(n: nat): nat {
    (n + 15) / 16 * 16
  }

  function SectionAt(o: Object, k: nat): seq<Byte> {
    if k < |o.sections| then o.sections[k] else []
  }

  /** Where section k of unit i begins, and where those before it end. */
  function Base(os: seq<Object>, i: nat, k: nat): nat
    requires i <= |os|
    decreases i, 1
  {
    Align16(Total(os, i, k))
  }

  function Total(os: seq<Object>, i: nat, k: nat): nat
    requires i <= |os|
    decreases i, 0
  {
    if i == 0 then 0 else Base(os, i - 1, k) + |SectionAt(os[i - 1], k)|
  }

  function Zeros(n: nat): seq<Byte> {
    seq(n, _ => 0)
  }

  /** The linked section: the units' sections in order, each at a multiple of 16. */
  function Payload(os: seq<Object>, i: nat, k: nat): seq<Byte>
    requires i <= |os|
    decreases i
  {
    if i == 0 then []
    else
      var before := Payload(os, i - 1, k);
      before + Zeros(Align16(|before|) - |before|) + SectionAt(os[i - 1], k)
  }

  lemma AlignUp(n: nat)
    ensures n <= Align16(n) < n + 16 && Align16(n) % 16 == 0
  {
  }

  lemma {:induction false} PayloadSize(os: seq<Object>, i: nat, k: nat)
    requires i <= |os|
    ensures |Payload(os, i, k)| == Total(os, i, k)
    decreases i
  {
    if i > 0 {
      PayloadSize(os, i - 1, k);
      AlignUp(Total(os, i - 1, k));
    }
  }

  lemma {:induction false} TotalGrows(os: seq<Object>, i: nat, n: nat, k: nat)
    requires i <= n <= |os|
    ensures Total(os, i, k) <= Total(os, n, k)
    decreases n
  {
    if i < n {
      TotalGrows(os, i, n - 1, k);
      AlignUp(Total(os, n - 1, k));
    }
  }

  /** Later units begin behind the end of earlier ones: no two overlap. */
  lemma BasesApart(os: seq<Object>, i: nat, n: nat, k: nat)
    requires i < n < |os|
    ensures Base(os, i, k) + |SectionAt(os[i], k)| <= Base(os, n, k)
  {
    TotalGrows(os, i + 1, n, k);
    AlignUp(Total(os, n, k));
  }

  /** Each unit's section is in the linked one, byte for byte, at its base. */
  lemma {:induction false} SectionIntact(os: seq<Object>, n: nat, i: nat, k: nat)
    requires i < n <= |os|
    ensures Base(os, i, k) + |SectionAt(os[i], k)| <= |Payload(os, n, k)|
    ensures Payload(os, n, k)[Base(os, i, k)..Base(os, i, k) + |SectionAt(os[i], k)|] == SectionAt(os[i], k)
    decreases n
  {
    hide SectionAt;
    var before := Payload(os, n - 1, k);
    var gap := Zeros(Align16(|before|) - |before|);
    PayloadSize(os, n - 1, k);
    AlignUp(|before|);
    if i < n - 1 {
      SectionIntact(os, n - 1, i, k);
      SlicePrefix(before, gap, SectionAt(os[n - 1], k), Base(os, i, k), Base(os, i, k) + |SectionAt(os[i], k)|);
    } else {
      SliceLast(before, gap, SectionAt(os[i], k));
    }
  }

  lemma SlicePrefix(a: seq<Byte>, b: seq<Byte>, c: seq<Byte>, i: nat, j: nat)
    requires i <= j <= |a|
    ensures (a + b + c)[i..j] == a[i..j]
  {
  }

  lemma SliceLast(a: seq<Byte>, b: seq<Byte>, c: seq<Byte>)
    ensures (a + b + c)[|a| + |b|..|a| + |b| + |c|] == c
  {
  }

  // ----- Symbols -----

  datatype Definition = Definition(symbol: Symbol, unit: nat, index: nat)

  predicate IsSymbol(os: seq<Object>, i: nat, j: nat) {
    i < |os| && j < |os[i].symbols|
  }

  predicate IsDefinition(os: seq<Object>, d: Definition) {
    IsSymbol(os, d.unit, d.index) && os[d.unit].symbols[d.index] == d.symbol && !Imported(d.symbol)
  }

  predicate IsImport(os: seq<Object>, i: nat, j: nat) {
    IsSymbol(os, i, j) && Imported(os[i].symbols[j])
  }

  function BaseOf(os: seq<Object>, i: nat, section: nat): nat
    requires i <= |os|
  {
    if 1 <= section <= 3 then Base(os, i, section - 1) else 0
  }

  function Moved(os: seq<Object>, d: Definition): Symbol
    requires d.unit <= |os|
  {
    d.symbol.(offset := d.symbol.offset + BaseOf(os, d.unit, d.symbol.section))
  }

  ghost predicate IsMoved(os: seq<Object>, s: Symbol) {
    exists d :: IsDefinition(os, d) && s == Moved(os, d)
  }

  /** The definition is what the import asks for. */
  predicate Satisfies(wanted: Symbol, d: Symbol) {
    d.name == wanted.name && Exported(d) && Role(d) == Role(wanted) && d.contract == wanted.contract
  }

  ghost predicate DefinedOnce(os: seq<Object>) {
    forall d, e :: IsDefinition(os, d) && IsDefinition(os, e) && d.symbol.name == e.symbol.name ==> d == e
  }

  ghost predicate ResolvedImport(os: seq<Object>, i: nat, j: nat)
    requires IsSymbol(os, i, j)
  {
    exists d :: IsDefinition(os, d) && Satisfies(os[i].symbols[j], d.symbol)
  }

  ghost predicate ImportsResolved(os: seq<Object>) {
    forall i, j :: IsImport(os, i, j) ==> ResolvedImport(os, i, j)
  }

  /** The one-based place of the symbol of that name, 0 if there is none. */
  function Locate(symbols: seq<Symbol>, name: Text): (t: nat)
    ensures t <= |symbols|
  {
    if symbols == [] then 0
    else if symbols[|symbols| - 1].name == name then |symbols|
    else Locate(symbols[..|symbols| - 1], name)
  }

  lemma {:induction false} LocateFinds(symbols: seq<Symbol>, name: Text)
    ensures Locate(symbols, name) > 0 ==> symbols[Locate(symbols, name) - 1].name == name
    ensures Locate(symbols, name) == 0 ==> forall t :: 0 <= t < |symbols| ==> symbols[t].name != name
    decreases |symbols|
  {
    if symbols != [] {
      LocateFinds(symbols[..|symbols| - 1], name);
    }
  }

  lemma LocateAt(symbols: seq<Symbol>, t: nat)
    requires Ordered(symbols, NameBefore) && t < |symbols|
    ensures Locate(symbols, symbols[t].name) == t + 1
  {
    var u := Locate(symbols, symbols[t].name);
    LocateFinds(symbols, symbols[t].name);
    BeforeTotal(symbols[t].name, symbols[t].name);
    if u - 1 != t {
      assert false;
    }
  }

  // ----- Relocations -----

  predicate IsReloc(os: seq<Object>, i: nat, j: nat) {
    i < |os| && j < |os[i].relocs|
  }

  function NameOf(o: Object, t: nat): Text {
    if 1 <= t <= |o.symbols| then o.symbols[t - 1].name else []
  }

  /** The same bytes, at their new place, and the definition of the same name. */
  function MovedReloc(os: seq<Object>, symbols: seq<Symbol>, i: nat, j: nat): Reloc
    requires IsReloc(os, i, j)
  {
    var r := os[i].relocs[j];
    Reloc(r.section, r.kind, Locate(symbols, NameOf(os[i], r.target)), r.offset + BaseOf(os, i, r.section), r.addend)
  }

  ghost predicate IsMovedReloc(os: seq<Object>, symbols: seq<Symbol>, r: Reloc) {
    exists i, j :: IsReloc(os, i, j) && r == MovedReloc(os, symbols, i, j)
  }

  // ----- Units and results -----

  function SymbolsBefore(os: seq<Object>, i: nat): nat
    requires i <= |os|
    decreases i
  {
    if i == 0 then 0 else SymbolsBefore(os, i - 1) + |os[i - 1].symbols|
  }

  function RelocsBefore(os: seq<Object>, i: nat): nat
    requires i <= |os|
    decreases i
  {
    if i == 0 then 0 else RelocsBefore(os, i - 1) + |os[i - 1].relocs|
  }

  predicate Fits(os: seq<Object>, i: nat, k: nat)
    requires i < |os|
  {
    Base(os, i, k) <= LINK_BYTES && |SectionAt(os[i], k)| <= LINK_BYTES - Base(os, i, k)
  }

  predicate SizesFit(os: seq<Object>, n: nat)
    requires n <= |os|
  {
    && SymbolsBefore(os, n) <= MAX_SYMBOLS && RelocsBefore(os, n) <= MAX_RELOCS
    && forall i, k :: 0 <= i < n && 0 <= k < 3 ==> Fits(os, i, k)
  }

  predicate UnitsAgree(os: seq<Object>, n: nat)
    requires n <= |os|
  {
    && (forall i :: 0 <= i < n ==> Valid(os[i]) && os[i].target == os[0].target)
    && forall i, j :: 0 <= i < j < n ==> os[i].entry == 0 || os[j].entry == 0
  }

  predicate Accepted(os: seq<Object>) {
    && 1 <= |os| <= MAX_UNITS && UnitsAgree(os, |os|) && SizesFit(os, |os|)
    && Total(os, |os|, 0) + Total(os, |os|, 1) + Total(os, |os|, 2) <= LINK_BYTES
  }

  ghost predicate Linkable(os: seq<Object>) {
    Accepted(os) && DefinedOnce(os) && ImportsResolved(os)
  }

  function EntryOf(os: seq<Object>, symbols: seq<Symbol>, n: nat): nat
    requires n <= |os|
    decreases n
  {
    if n == 0 then 0
    else if os[n - 1].entry > 0 then Locate(symbols, NameOf(os[n - 1], os[n - 1].entry))
    else EntryOf(os, symbols, n - 1)
  }

  ghost predicate LinkedSymbols(os: seq<Object>, symbols: seq<Symbol>) {
    Ordered(symbols, NameBefore) && forall s :: s in symbols <==> IsMoved(os, s)
  }

  ghost predicate LinkedRelocs(os: seq<Object>, symbols: seq<Symbol>, relocs: seq<Reloc>) {
    Ordered(relocs, RelocBefore) && forall r :: r in relocs <==> IsMovedReloc(os, symbols, r)
  }

  ghost predicate LinkedSections(os: seq<Object>, sections: seq<seq<Byte>>) {
    |sections| == 3 && forall k :: 0 <= k < 3 ==> sections[k] == Payload(os, |os|, k)
  }

  /** out is the link of os. */
  ghost predicate Linked(os: seq<Object>, out: Object) {
    && os != [] && out.target == os[0].target && LinkedSections(os, out.sections)
    && LinkedSymbols(os, out.symbols) && LinkedRelocs(os, out.symbols, out.relocs)
    && out.entry == EntryOf(os, out.symbols, |os|)
  }

  /** It is the only one: whatever sorts and searches, the result is the same. */
  lemma LinkedOnce(os: seq<Object>, a: Object, b: Object)
    requires Linked(os, a) && Linked(os, b)
    ensures a == b
  {
    NamesAreOrdered();
    OrderedOnce(a.symbols, b.symbols, NameBefore);
    RelocsAreOrdered();
    OrderedOnce(a.relocs, b.relocs, RelocBefore);
    assert a.sections == b.sections;
  }

  // ----- What a link keeps -----

  /** A range inside a unit's section is inside the linked one, moved. */
  lemma RangeFits(os: seq<Object>, i: nat, section: nat, at: nat, size: nat)
    requires i < |os| && 1 <= section <= 3 && |os[i].sections| == 3 && at + size <= SizeOf(os[i].sections, section)
    ensures at + BaseOf(os, i, section) + size <= |Payload(os, |os|, section - 1)|
  {
    TotalGrows(os, i + 1, |os|, section - 1);
    PayloadSize(os, |os|, section - 1);
  }

  lemma UnitSymbolValid(os: seq<Object>, i: nat, k: nat)
    requires Accepted(os) && i < |os| && k < |os[i].symbols|
    ensures ValidSymbol(os[i].sections, os[i].symbols[k]) && |os[i].sections| == 3
  {
    assert Valid(os[i]);
  }

  lemma SymbolStaysValid(os: seq<Object>, out: Object, t: nat)
    requires Accepted(os) && Linked(os, out) && t < |out.symbols|
    ensures ValidSymbol(out.sections, out.symbols[t]) && !Imported(out.symbols[t])
  {
    hide Accepted, Valid;
    assert out.symbols[t] in out.symbols;
    var d :| IsDefinition(os, d) && out.symbols[t] == Moved(os, d);
    UnitSymbolValid(os, d.unit, d.index);
    RangeFits(os, d.unit, d.symbol.section, d.symbol.offset, d.symbol.size);
  }

  /** The definition a name has in the result. */
  lemma NamedDefinition(os: seq<Object>, symbols: seq<Symbol>, d: Definition)
    requires LinkedSymbols(os, symbols) && IsDefinition(os, d)
    ensures var t := Locate(symbols, d.symbol.name);
            t > 0 && symbols[t - 1] == Moved(os, d)
  {
    assert IsMoved(os, Moved(os, d));
    assert Moved(os, d) in symbols;
    var t :| 0 <= t < |symbols| && symbols[t] == Moved(os, d);
    LocateAt(symbols, t);
  }

  /** Every name a unit uses is defined in the result: by the unit itself, or, for an import, by
      the one definition that satisfies it. */
  lemma NameResolved(os: seq<Object>, symbols: seq<Symbol>, i: nat, j: nat)
    requires LinkedSymbols(os, symbols) && ImportsResolved(os) && IsSymbol(os, i, j)
    ensures var s, t := os[i].symbols[j], Locate(symbols, os[i].symbols[j].name);
            && t > 0 && symbols[t - 1].name == s.name
            && (if Imported(s) then Satisfies(s, symbols[t - 1]) else symbols[t - 1] == Moved(os, Definition(s, i, j)))
  {
    var s := os[i].symbols[j];
    if Imported(s) {
      assert IsImport(os, i, j);
      var d :| IsDefinition(os, d) && Satisfies(s, d.symbol);
      NamedDefinition(os, symbols, d);
    } else {
      NamedDefinition(os, symbols, Definition(s, i, j));
    }
  }

  lemma RelocFacts(os: seq<Object>, i: nat, j: nat)
    requires IsReloc(os, i, j) && Valid(os[i])
    ensures ValidReloc(os[i].sections, |os[i].symbols|, os[i].relocs[j]) && |os[i].sections| == 3
  {
  }

  lemma RelocStaysValid(os: seq<Object>, out: Object, i: nat, j: nat)
    requires IsReloc(os, i, j) && Valid(os[i]) && ImportsResolved(os)
    requires LinkedSymbols(os, out.symbols) && LinkedSections(os, out.sections)
    ensures ValidReloc(out.sections, |out.symbols|, MovedReloc(os, out.symbols, i, j))
  {
    var r := os[i].relocs[j];
    RelocFacts(os, i, j);
    NameResolved(os, out.symbols, i, r.target - 1);
    RangeFits(os, i, r.section, r.offset, Width(r.kind));
  }

  lemma BytesFollow(os: seq<Object>, out: Object, i: nat, j: nat)
    requires IsReloc(os, i, j) && Valid(os[i]) && LinkedSections(os, out.sections)
    ensures var r, at := os[i].relocs[j], os[i].relocs[j].offset + BaseOf(os, i, os[i].relocs[j].section);
            && 1 <= r.section <= 3 && r.offset + Width(r.kind) <= |os[i].sections[r.section - 1]|
            && at + Width(r.kind) <= |out.sections[r.section - 1]|
            && out.sections[r.section - 1][at..at + Width(r.kind)] == os[i].sections[r.section - 1][r.offset..r.offset + Width(r.kind)]
  {
    var r := os[i].relocs[j];
    RelocFacts(os, i, j);
    SectionIntact(os, |os|, i, r.section - 1);
    SameBytes(out.sections[r.section - 1], Base(os, i, r.section - 1), os[i].sections[r.section - 1], r.offset, Width(r.kind));
  }

  /** The symbol a relocation of unit i names. */
  function TargetOf(os: seq<Object>, i: nat, j: nat): Definition
    requires IsReloc(os, i, j) && 1 <= os[i].relocs[j].target <= |os[i].symbols|
  {
    var t := os[i].relocs[j].target - 1;
    Definition(os[i].symbols[t], i, t)
  }

  /** Relocation m of the result is the one of unit i: it patches the image of the same bytes, and
      its target is the definition of the same name, moved as that definition's unit was. */
  ghost predicate Follows(os: seq<Object>, out: Object, i: nat, j: nat, m: Reloc)
    requires IsReloc(os, i, j)
  {
    var r := os[i].relocs[j];
    && m.kind == r.kind && m.section == r.section && m.addend == r.addend
    && 1 <= r.section <= 3 && |os[i].sections| == 3 && |out.sections| == 3
    && 1 <= m.target <= |out.symbols| && 1 <= r.target <= |os[i].symbols|
    && r.offset + Width(r.kind) <= |os[i].sections[r.section - 1]| && m.offset + Width(r.kind) <= |out.sections[r.section - 1]|
    && m.offset == r.offset + Base(os, i, r.section - 1)
    && out.sections[r.section - 1][m.offset..m.offset + Width(r.kind)] ==
       os[i].sections[r.section - 1][r.offset..r.offset + Width(r.kind)]
    && out.symbols[m.target - 1].name == TargetOf(os, i, j).symbol.name && !Imported(out.symbols[m.target - 1])
    && (!Imported(TargetOf(os, i, j).symbol) ==> out.symbols[m.target - 1] == Moved(os, TargetOf(os, i, j)))
  }

  /** Every relocation of every unit is followed by one of the result, and the result has no others. */
  lemma RelocationFollows(os: seq<Object>, out: Object, i: nat, j: nat)
    requires Linkable(os) && Linked(os, out) && IsReloc(os, i, j)
    ensures MovedReloc(os, out.symbols, i, j) in out.relocs && Follows(os, out, i, j, MovedReloc(os, out.symbols, i, j))
  {
    assert Valid(os[i]);
    assert IsMovedReloc(os, out.symbols, MovedReloc(os, out.symbols, i, j));
    FollowsFrom(os, out, i, j);
  }

  lemma FollowsFrom(os: seq<Object>, out: Object, i: nat, j: nat)
    requires IsReloc(os, i, j) && Valid(os[i]) && ImportsResolved(os)
    requires LinkedSymbols(os, out.symbols) && LinkedSections(os, out.sections)
    ensures Follows(os, out, i, j, MovedReloc(os, out.symbols, i, j))
  {
    RelocFacts(os, i, j);
    BytesFollow(os, out, i, j);
    NameResolved(os, out.symbols, i, os[i].relocs[j].target - 1);
    NoImportSurvives(os, out.symbols, MovedReloc(os, out.symbols, i, j).target - 1);
  }

  lemma NoImportSurvives(os: seq<Object>, symbols: seq<Symbol>, t: nat)
    requires LinkedSymbols(os, symbols) && t < |symbols|
    ensures !Imported(symbols[t])
  {
    assert symbols[t] in symbols;
  }

  lemma RelocationsFollow(os: seq<Object>, out: Object, m: Reloc)
    requires Linkable(os) && Linked(os, out) && m in out.relocs
    ensures exists i, j :: IsReloc(os, i, j) && Follows(os, out, i, j, m)
  {
    var i, j :| IsReloc(os, i, j) && m == MovedReloc(os, out.symbols, i, j);
    RelocationFollows(os, out, i, j);
  }

  lemma SameBytes(whole: seq<Byte>, base: nat, part: seq<Byte>, at: nat, n: nat)
    requires base + |part| <= |whole| && whole[base..base + |part|] == part && at + n <= |part|
    ensures whole[base + at..base + at + n] == part[at..at + n]
  {
    SliceOfSlice(whole, base, base + |part|, at, at + n);
  }

  lemma SliceOfSlice(s: seq<Byte>, b: nat, e: nat, i: nat, j: nat)
    requires b <= e <= |s| && i <= j <= e - b
    ensures s[b..e][i..j] == s[b + i..b + j]
  {
    forall t | 0 <= t < j - i
      ensures s[b..e][i..j][t] == s[b + i..b + j][t]
    {
      assert s[b..e][i + t] == s[b + i + t];
    }
  }

  lemma EntryFound(os: seq<Object>, out: Object, i: nat)
    requires i < |os| && Valid(os[i]) && ImportsResolved(os) && LinkedSymbols(os, out.symbols) && os[i].entry > 0
    ensures var e := Locate(out.symbols, NameOf(os[i], os[i].entry));
            e > 0 && out.symbols[e - 1].section == 1 && Role(out.symbols[e - 1]) % 2 == 1
  {
    var o := os[i];
    assert ValidSymbol(o.sections, o.symbols[o.entry - 1]);
    NameResolved(os, out.symbols, i, o.entry - 1);
  }

  lemma UnitEntryFound(os: seq<Object>, out: Object, i: nat)
    requires Linkable(os) && Linked(os, out) && i < |os| && os[i].entry > 0
    ensures var e := Locate(out.symbols, NameOf(os[i], os[i].entry));
            0 < e <= |out.symbols| && out.symbols[e - 1].section == 1 && Role(out.symbols[e - 1]) % 2 == 1
  {
    hide Role, ImportsResolved, LinkedSections, LinkedRelocs;
    assert Valid(os[i]);
    EntryFound(os, out, i);
  }

  lemma {:induction false} EntryStaysValid(os: seq<Object>, out: Object, n: nat)
    requires Linkable(os) && Linked(os, out) && n <= |os|
    ensures var e := EntryOf(os, out.symbols, n);
            e > 0 ==> e <= |out.symbols| && out.symbols[e - 1].section == 1 && Role(out.symbols[e - 1]) % 2 == 1
    decreases n
  {
    hide Linkable, Linked, Role, Locate;
    if n > 0 {
      if os[n - 1].entry > 0 {
        UnitEntryFound(os, out, n - 1);
      } else {
        EntryStaysValid(os, out, n - 1);
      }
    }
  }

  /** The entry of the result is the entry of the unit that has one. */
  lemma {:induction false} EntryKept(os: seq<Object>, symbols: seq<Symbol>, n: nat, i: nat)
    requires i < n <= |os| && os[i].entry > 0 && forall j, k :: 0 <= j < k < |os| ==> os[j].entry == 0 || os[k].entry == 0
    ensures EntryOf(os, symbols, n) == Locate(symbols, NameOf(os[i], os[i].entry))
    decreases n
  {
    if i < n - 1 {
      EntryKept(os, symbols, n - 1, i);
    }
  }

  // ----- Lists in the order of the units -----

  function Definitions(os: seq<Object>, i: nat, j: nat): seq<Definition>
    requires i <= |os| && (i < |os| ==> j <= |os[i].symbols|) && (i == |os| ==> j == 0)
    decreases i, j
  {
    if j > 0 then
      Definitions(os, i, j - 1) +
      (if Imported(os[i].symbols[j - 1]) then [] else [Definition(os[i].symbols[j - 1], i, j - 1)])
    else if i > 0 then Definitions(os, i - 1, |os[i - 1].symbols|)
    else []
  }

  predicate Earlier(i: nat, j: nat, n: nat, m: nat) {
    i < n || (i == n && j < m)
  }

  lemma {:induction false} DefinitionsAre(os: seq<Object>, i: nat, j: nat)
    requires i <= |os| && (i < |os| ==> j <= |os[i].symbols|) && (i == |os| ==> j == 0)
    ensures forall d :: d in Definitions(os, i, j) <==> IsDefinition(os, d) && Earlier(d.unit, d.index, i, j)
    ensures Distinct(Definitions(os, i, j))
    ensures |Definitions(os, i, j)| <= SymbolsBefore(os, i) + j
    decreases i, j
  {
    if j > 0 {
      DefinitionsAre(os, i, j - 1);
    } else if i > 0 {
      DefinitionsAre(os, i - 1, |os[i - 1].symbols|);
    }
  }

  /** The relocations moved so far, in the order of the units. */
  function MovedRelocs(os: seq<Object>, symbols: seq<Symbol>, i: nat, j: nat): seq<Reloc>
    requires i <= |os| && (i < |os| ==> j <= |os[i].relocs|) && (i == |os| ==> j == 0)
    decreases i, j
  {
    if j > 0 then MovedRelocs(os, symbols, i, j - 1) + [MovedReloc(os, symbols, i, j - 1)]
    else if i > 0 then MovedRelocs(os, symbols, i - 1, |os[i - 1].relocs|)
    else []
  }

  ghost predicate MovedEarlier(os: seq<Object>, symbols: seq<Symbol>, r: Reloc, n: nat, m: nat) {
    exists i, j :: IsReloc(os, i, j) && Earlier(i, j, n, m) && r == MovedReloc(os, symbols, i, j)
  }

  lemma {:induction false} MovedRelocsAre(os: seq<Object>, symbols: seq<Symbol>, i: nat, j: nat)
    requires i <= |os| && (i < |os| ==> j <= |os[i].relocs|) && (i == |os| ==> j == 0)
    ensures forall r :: r in MovedRelocs(os, symbols, i, j) <==> MovedEarlier(os, symbols, r, i, j)
    ensures |MovedRelocs(os, symbols, i, j)| == RelocsBefore(os, i) + j
    decreases i, j
  {
    hide MovedReloc;
    if j > 0 {
      MovedRelocsAre(os, symbols, i, j - 1);
      forall r
        ensures r in MovedRelocs(os, symbols, i, j) <==> MovedEarlier(os, symbols, r, i, j)
      {
        if r == MovedReloc(os, symbols, i, j - 1) {
          assert IsReloc(os, i, j - 1) && Earlier(i, j - 1, i, j);
        }
        if MovedEarlier(os, symbols, r, i, j - 1) {
          var a, b :| IsReloc(os, a, b) && Earlier(a, b, i, j - 1) && r == MovedReloc(os, symbols, a, b);
          assert Earlier(a, b, i, j);
        }
      }
    } else if i > 0 {
      MovedRelocsAre(os, symbols, i - 1, |os[i - 1].relocs|);
      forall r
        ensures MovedEarlier(os, symbols, r, i - 1, |os[i - 1].relocs|) <==> MovedEarlier(os, symbols, r, i, j)
      {
        SameEarlier(os, symbols, r, i);
      }
    }
  }

  lemma SameEarlier(os: seq<Object>, symbols: seq<Symbol>, r: Reloc, i: nat)
    requires 0 < i <= |os|
    ensures MovedEarlier(os, symbols, r, i - 1, |os[i - 1].relocs|) <==> MovedEarlier(os, symbols, r, i, 0)
  {
    if MovedEarlier(os, symbols, r, i, 0) {
      var a, b :| IsReloc(os, a, b) && Earlier(a, b, i, 0) && r == MovedReloc(os, symbols, a, b);
      assert Earlier(a, b, i - 1, |os[i - 1].relocs|);
    }
    if MovedEarlier(os, symbols, r, i - 1, |os[i - 1].relocs|) {
      var a, b :| IsReloc(os, a, b) && Earlier(a, b, i - 1, |os[i - 1].relocs|) && r == MovedReloc(os, symbols, a, b);
      assert Earlier(a, b, i, 0);
    }
  }

  /** Two different relocations patch different bytes, before the link and after it. */
  lemma SiteFits(os: seq<Object>, i: nat, j: nat)
    requires Accepted(os) && IsReloc(os, i, j)
    ensures ValidReloc(os[i].sections, |os[i].symbols|, os[i].relocs[j])
  {
    assert Valid(os[i]);
  }

  lemma SitesOrdered(os: seq<Object>, i: nat, j: nat, m: nat)
    requires Accepted(os) && IsReloc(os, i, j) && IsReloc(os, i, m) && j < m
    ensures RelocBefore(os[i].relocs[j], os[i].relocs[m])
  {
    assert Valid(os[i]);
  }

  lemma SitesApart(os: seq<Object>, symbols: seq<Symbol>, i: nat, j: nat, n: nat, m: nat)
    requires Accepted(os) && IsReloc(os, i, j) && IsReloc(os, n, m) && Earlier(i, j, n, m)
    ensures RelocBefore(MovedReloc(os, symbols, i, j), MovedReloc(os, symbols, n, m)) ||
            RelocBefore(MovedReloc(os, symbols, n, m), MovedReloc(os, symbols, i, j))
  {
    hide Accepted, Valid;
    var r, s := os[i].relocs[j], os[n].relocs[m];
    SiteFits(os, i, j);
    SiteFits(os, n, m);
    if i == n {
      SitesOrdered(os, i, j, m);
    } else if r.section == s.section {
      BasesApart(os, i, n, r.section - 1);
    }
  }

  lemma NewSite(os: seq<Object>, symbols: seq<Symbol>, i: nat, j: nat, r: Reloc)
    requires Accepted(os) && IsReloc(os, i, j) && MovedEarlier(os, symbols, r, i, j)
    ensures r != MovedReloc(os, symbols, i, j)
  {
    var a: nat, b: nat :| IsReloc(os, a, b) && Earlier(a, b, i, j) && r == MovedReloc(os, symbols, a, b);
    SitesApart(os, symbols, a, b, i, j);
  }

  lemma NewIsDistinct(all: seq<Reloc>, r: Reloc)
    requires Distinct(all) && forall t :: 0 <= t < |all| ==> all[t] != r
    ensures Distinct(all + [r])
  {
  }

  lemma SiteIsNew(os: seq<Object>, symbols: seq<Symbol>, i: nat, j: nat)
    requires Accepted(os) && IsReloc(os, i, j)
    ensures forall t :: 0 <= t < |MovedRelocs(os, symbols, i, j)| ==> MovedRelocs(os, symbols, i, j)[t] != MovedReloc(os, symbols, i, j)
  {
    var all := MovedRelocs(os, symbols, i, j);
    MovedRelocsAre(os, symbols, i, j);
    forall t | 0 <= t < |all|
      ensures all[t] != MovedReloc(os, symbols, i, j)
    {
      assert all[t] in all;
      NewSite(os, symbols, i, j, all[t]);
    }
  }

  lemma {:induction false} MovedRelocsDistinct(os: seq<Object>, symbols: seq<Symbol>, i: nat, j: nat)
    requires Accepted(os) && i <= |os| && (i < |os| ==> j <= |os[i].relocs|) && (i == |os| ==> j == 0)
    ensures Distinct(MovedRelocs(os, symbols, i, j))
    decreases i, j
  {
    hide Accepted;
    if j > 0 {
      MovedRelocsDistinct(os, symbols, i, j - 1);
      SiteIsNew(os, symbols, i, j - 1);
      NewIsDistinct(MovedRelocs(os, symbols, i, j - 1), MovedReloc(os, symbols, i, j - 1));
    } else if i > 0 {
      MovedRelocsDistinct(os, symbols, i - 1, |os[i - 1].relocs|);
    }
  }

  // ----- The result is valid -----

  lemma StrictIsDistinct<T(!new)>(s: seq<T>, lt: (T, T) -> bool)
    requires Strict(lt) && Ordered(s, lt)
    ensures Distinct(s)
  {
  }

  lemma SymbolCount(os: seq<Object>, symbols: seq<Symbol>)
    requires LinkedSymbols(os, symbols)
    ensures |symbols| <= SymbolsBefore(os, |os|)
  {
    var defs := Definitions(os, |os|, 0);
    DefinitionsAre(os, |os|, 0);
    var moved := seq(|defs|, t requires 0 <= t < |defs| && defs[t].unit <= |os| => Moved(os, defs[t]));
    forall s | s in symbols
      ensures s in moved
    {
      var d :| IsDefinition(os, d) && s == Moved(os, d);
      assert d in defs;
      var t :| 0 <= t < |defs| && defs[t] == d;
      assert moved[t] == s;
    }
    NamesAreOrdered();
    StrictIsDistinct(symbols, NameBefore);
    DistinctFits(symbols, moved);
  }

  lemma RelocCount(os: seq<Object>, symbols: seq<Symbol>, relocs: seq<Reloc>)
    requires LinkedRelocs(os, symbols, relocs)
    ensures |relocs| <= RelocsBefore(os, |os|)
  {
    MovedRelocsAre(os, symbols, |os|, 0);
    forall r | r in relocs
      ensures r in MovedRelocs(os, symbols, |os|, 0)
    {
      var i, j :| IsReloc(os, i, j) && r == MovedReloc(os, symbols, i, j);
      assert Earlier(i, j, |os|, 0);
    }
    RelocsAreOrdered();
    StrictIsDistinct(relocs, RelocBefore);
    DistinctFits(relocs, MovedRelocs(os, symbols, |os|, 0));
  }

  lemma SectionsStayValid(os: seq<Object>, out: Object)
    requires Accepted(os) && LinkedSections(os, out.sections)
    ensures ValidSections(out)
  {
    hide UnitsAgree, SizesFit, Total, Payload;
    PayloadSize(os, |os|, 0);
    PayloadSize(os, |os|, 1);
    PayloadSize(os, |os|, 2);
  }

  lemma SymbolsStayValid(os: seq<Object>, out: Object)
    requires Accepted(os) && Linked(os, out)
    ensures forall t :: 0 <= t < |out.symbols| ==> ValidSymbol(out.sections, out.symbols[t]) && !Imported(out.symbols[t])
  {
    forall t | 0 <= t < |out.symbols|
      ensures ValidSymbol(out.sections, out.symbols[t]) && !Imported(out.symbols[t])
    {
      SymbolStaysValid(os, out, t);
    }
  }

  lemma MovedStaysValid(os: seq<Object>, out: Object, r: Reloc)
    requires (forall i :: 0 <= i < |os| ==> Valid(os[i])) && ImportsResolved(os)
    requires LinkedSymbols(os, out.symbols) && LinkedSections(os, out.sections) && IsMovedReloc(os, out.symbols, r)
    ensures ValidReloc(out.sections, |out.symbols|, r)
  {
    var i: nat, j: nat :| IsReloc(os, i, j) && r == MovedReloc(os, out.symbols, i, j);
    RelocStaysValid(os, out, i, j);
  }

  lemma RelocsStayValid(os: seq<Object>, out: Object)
    requires Linkable(os) && Linked(os, out)
    ensures forall t :: 0 <= t < |out.relocs| ==> ValidReloc(out.sections, |out.symbols|, out.relocs[t])
  {
    forall t | 0 <= t < |out.relocs|
      ensures ValidReloc(out.sections, |out.symbols|, out.relocs[t])
    {
      assert out.relocs[t] in out.relocs;
      MovedStaysValid(os, out, out.relocs[t]);
    }
  }

  /** A link is a valid object without imports: the last check of the linker never fails. */
  lemma LinkedIsValid(os: seq<Object>, out: Object)
    requires Linkable(os) && Linked(os, out)
    ensures Valid(out) && Closed(out)
  {
    SymbolCount(os, out.symbols);
    RelocCount(os, out.symbols, out.relocs);
    SectionsStayValid(os, out);
    SymbolsStayValid(os, out);
    RelocsStayValid(os, out);
    EntryStaysValid(os, out, |os|);
    assert Valid(os[0]);
  }

  // ----- One closed unit -----

  predicate Closed(o: Object) {
    forall t :: 0 <= t < |o.symbols| ==> !Imported(o.symbols[t])
  }

  lemma OneBase(o: Object, k: nat)
    ensures Base([o], 0, k) == 0 && Total([o], 1, k) == |SectionAt(o, k)| && Payload([o], 1, k) == SectionAt(o, k)
  {
  }

  lemma OneMoved(o: Object, d: Definition)
    requires IsDefinition([o], d)
    ensures Moved([o], d) == d.symbol
  {
    if 1 <= d.symbol.section <= 3 {
      OneBase(o, d.symbol.section - 1);
    }
  }

  lemma OneReloc(o: Object, j: nat)
    requires Valid(o) && j < |o.relocs|
    ensures MovedReloc([o], o.symbols, 0, j) == o.relocs[j]
  {
    var r := o.relocs[j];
    assert ValidReloc(o.sections, |o.symbols|, r);
    OneBase(o, r.section - 1);
    LocateAt(o.symbols, r.target - 1);
  }

  lemma OneSymbols(o: Object)
    requires Valid(o) && Closed(o)
    ensures LinkedSymbols([o], o.symbols) && DefinedOnce([o]) && ImportsResolved([o])
  {
    forall s
      ensures s in o.symbols <==> IsMoved([o], s)
    {
      if s in o.symbols {
        var t :| 0 <= t < |o.symbols| && o.symbols[t] == s;
        OneMoved(o, Definition(s, 0, t));
      }
      if IsMoved([o], s) {
        var d :| IsDefinition([o], d) && s == Moved([o], d);
        OneMoved(o, d);
      }
    }
    forall d, e | IsDefinition([o], d) && IsDefinition([o], e) && d.symbol.name == e.symbol.name
      ensures d == e
    {
      LocateAt(o.symbols, d.index);
      LocateAt(o.symbols, e.index);
    }
  }

  lemma OneRelocs(o: Object)
    requires Valid(o)
    ensures LinkedRelocs([o], o.symbols, o.relocs)
  {
    forall r
      ensures r in o.relocs <==> IsMovedReloc([o], o.symbols, r)
    {
      if r in o.relocs {
        var t :| 0 <= t < |o.relocs| && o.relocs[t] == r;
        OneReloc(o, t);
        assert IsReloc([o], 0, t);
      }
      if IsMovedReloc([o], o.symbols, r) {
        var i, j :| IsReloc([o], i, j) && r == MovedReloc([o], o.symbols, i, j);
        OneReloc(o, j);
      }
    }
  }

  /** Linking one closed object gives that object back, exactly when its payload fits a link. */
  lemma OneClosed(o: Object)
    requires Valid(o) && Closed(o)
    ensures Linked([o], o)
    ensures Linkable([o]) <==> |o.sections[0]| + |o.sections[1]| + |o.sections[2]| <= LINK_BYTES
  {
    OneSymbols(o);
    OneRelocs(o);
    OneBase(o, 0);
    OneBase(o, 1);
    OneBase(o, 2);
    assert EntryOf([o], o.symbols, 1) == o.entry by {
      assert EntryOf([o], o.symbols, 0) == 0;
      if o.entry > 0 {
        LocateAt(o.symbols, o.entry - 1);
      }
    }
    assert SymbolsBefore([o], 0) == 0 && RelocsBefore([o], 0) == 0;
    assert SizesFit([o], 1);
  }

  /** For example an object without symbols that fills its text and has one more byte of constants. */
  lemma FullObjectNotLinkable()
    ensures var o := Object(1, 0, [seq(MAX_FILE, i => 0), [0], []], [], []);
            Valid(o) && Closed(o) && Linked([o], o) && !Linkable([o])
  {
    hide Linkable, Linked;
    var text: Text := seq(MAX_FILE, i => 0);
    var o := Object(1, 0, [text, [0], []], [], []);
    assert o == Object(1, 0, [seq(MAX_FILE, i => 0), [0], []], [], []);
    OneClosed(o);
  }

  /** So a link links to itself. */
  lemma LinkAgain(os: seq<Object>, out: Object, again: Object)
    requires Linkable(os) && Linked(os, out) && Linked([out], again)
    ensures Linkable([out]) && again == out
  {
    LinkedIsValid(os, out);
    OneClosed(out);
    LinkedOnce([out], again, out);
    PayloadSize(os, |os|, 0);
    PayloadSize(os, |os|, 1);
    PayloadSize(os, |os|, 2);
  }
}
