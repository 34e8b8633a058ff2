/** Where a link puts what its units define, said by offsets and bytes. */
module LinkedPlaces {
  import opened Sorting
  import opened Objects
  import opened LinkSpec

  /** s is the definition d of unit i in the linked object: everything but the offset is the same,
      the offset is moved by the base of the unit's section, and the same bytes are there. */
  ghost predicate PlacedAs(os: seq<Object>, out: Object, d: Definition, s: Symbol) {
    && d.unit < |os| && 1 <= d.symbol.section <= 3 && |os[d.unit].sections| == 3 && |out.sections| == 3
    && s.name == d.symbol.name && s.contract == d.symbol.contract && s.section == d.symbol.section
    && s.flags == d.symbol.flags && s.size == d.symbol.size
    && s.offset == d.symbol.offset + Base(os, d.unit, d.symbol.section - 1)
    && var from, to := os[d.unit].sections[d.symbol.section - 1], out.sections[d.symbol.section - 1];
       && d.symbol.offset + d.symbol.size <= |from| && s.offset + s.size <= |to|
       && to[s.offset..s.offset + s.size] == from[d.symbol.offset..d.symbol.offset + d.symbol.size]
  }

  lemma NamedOnce(symbols: seq<Symbol>, t: nat, u: nat)
    requires Ordered(symbols, NameBefore) && t < |symbols| && u < |symbols| && symbols[t].name == symbols[u].name
    ensures t == u
  {
    LocateAt(symbols, t);
    LocateAt(symbols, u);
  }

  lemma DefinitionInside(os: seq<Object>, d: Definition)
    requires Accepted(os) && IsDefinition(os, d)
    ensures 1 <= d.symbol.section <= 3 && |os[d.unit].sections| == 3
    ensures d.symbol.offset + d.symbol.size <= |os[d.unit].sections[d.symbol.section - 1]|
  {
    hide Accepted, Ordered;
    UnitSymbolValid(os, d.unit, d.index);
  }

  /** Every definition of every unit is in the linked object under its name, once, at its new place. */
  lemma DefinitionPlaced(os: seq<Object>, out: Object, d: Definition)
    requires Accepted(os) && Linked(os, out) && IsDefinition(os, d)
    ensures exists t :: 0 <= t < |out.symbols| && out.symbols[t].name == d.symbol.name
    ensures forall t :: 0 <= t < |out.symbols| && out.symbols[t].name == d.symbol.name ==> PlacedAs(os, out, d, out.symbols[t])
  {
    hide Accepted, LinkedRelocs, EntryOf, PlacedAs, Locate;
    NamedDefinition(os, out.symbols, d);
    var u := Locate(out.symbols, d.symbol.name) - 1;
    IsPlaced(os, out, d, out.symbols[u]);
    forall t | 0 <= t < |out.symbols| && out.symbols[t].name == d.symbol.name
      ensures PlacedAs(os, out, d, out.symbols[t])
    {
      NamedOnce(out.symbols, t, u);
    }
  }

  lemma IsPlaced(os: seq<Object>, out: Object, d: Definition, s: Symbol)
    requires Accepted(os) && LinkedSections(os, out.sections) && IsDefinition(os, d) && s == Moved(os, d)
    ensures PlacedAs(os, out, d, s)
  {
    hide Accepted;
    DefinitionInside(os, d);
    var k := d.symbol.section - 1;
    SectionIntact(os, |os|, d.unit, k);
    SameBytes(out.sections[k], Base(os, d.unit, k), os[d.unit].sections[k], d.symbol.offset, d.symbol.size);
  }

  /** And every symbol of the linked object is such a definition. */
  lemma SymbolPlaced(os: seq<Object>, out: Object, t: nat)
    requires Accepted(os) && Linked(os, out) && t < |out.symbols|
    ensures exists d :: IsDefinition(os, d) && PlacedAs(os, out, d, out.symbols[t])
  {
    hide Accepted, LinkedRelocs, EntryOf, PlacedAs;
    assert out.symbols[t] in out.symbols;
    var d :| IsDefinition(os, d) && out.symbols[t] == Moved(os, d);
    IsPlaced(os, out, d, out.symbols[t]);
  }

  /** The definition that a symbol of unit i stands for: itself, or the exported one of its name with
      the same role and contract. */
  ghost predicate StandsFor(os: seq<Object>, s: Symbol, i: nat, j: nat, d: Definition) {
    && IsDefinition(os, d) && d.symbol.name == s.name
    && if s.flags / 8 % 2 == 1
       then d.symbol.flags % 2 == 1 && d.symbol.contract == s.contract && d.symbol.flags / 2 % 4 == s.flags / 2 % 4
       else d == Definition(s, i, j)
  }

  lemma SymbolStands(os: seq<Object>, i: nat, j: nat) returns (d: Definition)
    requires ImportsResolved(os) && IsSymbol(os, i, j)
    ensures StandsFor(os, os[i].symbols[j], i, j, d)
  {
    var s := os[i].symbols[j];
    if Imported(s) {
      assert IsImport(os, i, j);
      d :| IsDefinition(os, d) && Satisfies(s, d.symbol);
    } else {
      d := Definition(s, i, j);
    }
  }

  /** A relocation of unit i, and one of the linked object that patches the image of its bytes and
      points to the placed definition that its target stands for. */
  ghost predicate ReachesAs(os: seq<Object>, out: Object, r: Reloc, i: nat, d: Definition, m: Reloc) {
    && i < |os| && 1 <= r.section <= 3 && |os[i].sections| == 3 && |out.sections| == 3
    && m.section == r.section && m.kind == r.kind && m.addend == r.addend
    && 1 <= m.target <= |out.symbols| && PlacedAs(os, out, d, out.symbols[m.target - 1])
    && m.offset == r.offset + Base(os, i, r.section - 1)
    && var n := if r.kind == 1 then 4 else 8;
       && r.offset + n <= |os[i].sections[r.section - 1]| && m.offset + n <= |out.sections[r.section - 1]|
       && out.sections[r.section - 1][m.offset..m.offset + n] == os[i].sections[r.section - 1][r.offset..r.offset + n]
  }

  /** Every relocation of every unit, its target defined in the unit or imported, is carried over. */
  lemma RelocationReaches(os: seq<Object>, out: Object, i: nat, j: nat) returns (d: Definition, m: Reloc)
    requires Linkable(os) && Linked(os, out) && IsReloc(os, i, j)
    ensures 1 <= os[i].relocs[j].target <= |os[i].symbols|
    ensures var t := os[i].relocs[j].target - 1; StandsFor(os, os[i].symbols[t], i, t, d)
    ensures m in out.relocs && ReachesAs(os, out, os[i].relocs[j], i, d, m)
  {
    hide Accepted, PlacedAs, StandsFor, LinkedRelocs, LinkedSymbols, LinkedSections, EntryOf;
    m := MovedReloc(os, out.symbols, i, j);
    RelocationFollows(os, out, i, j);
    var t := os[i].relocs[j].target - 1;
    d := SymbolStands(os, i, t);
    TargetPlaced(os, out, i, t, d, m.target - 1);
    assert Valid(os[i]) by {
      UnitIsValid(os, i);
    }
    RelocFacts(os, i, j);
  }

  lemma UnitIsValid(os: seq<Object>, i: nat)
    requires Accepted(os) && i < |os|
    ensures Valid(os[i])
  {
  }

  lemma TargetPlaced(os: seq<Object>, out: Object, i: nat, t: nat, d: Definition, u: nat)
    requires Accepted(os) && Linked(os, out) && IsSymbol(os, i, t) && StandsFor(os, os[i].symbols[t], i, t, d)
    requires u < |out.symbols| && out.symbols[u].name == os[i].symbols[t].name
    ensures PlacedAs(os, out, d, out.symbols[u])
  {
    hide Accepted, Linked, PlacedAs;
    DefinitionPlaced(os, out, d);
  }

  /** The entry of the linked object is the placed entry of the unit that has one. */
  lemma EntryPlaced(os: seq<Object>, out: Object, i: nat) returns (d: Definition)
    requires Linkable(os) && Linked(os, out) && i < |os| && os[i].entry > 0
    ensures 1 <= out.entry <= |out.symbols| && os[i].entry <= |os[i].symbols|
    ensures StandsFor(os, os[i].symbols[os[i].entry - 1], i, os[i].entry - 1, d)
    ensures PlacedAs(os, out, d, out.symbols[out.entry - 1])
  {
    hide PlacedAs, StandsFor, Linked, LinkedSymbols, Accepted, ImportsResolved, DefinedOnce, Role;
    UnitIsValid(os, i);
    UnitEntryFound(os, out, i);
    OneEntry(os);
    EntryIs(os, out, i);
    d := SymbolStands(os, i, os[i].entry - 1);
    LocateFinds(out.symbols, NameOf(os[i], os[i].entry));
    TargetPlaced(os, out, i, os[i].entry - 1, d, out.entry - 1);
  }

  lemma OneEntry(os: seq<Object>)
    requires Accepted(os)
    ensures forall j, k :: 0 <= j < k < |os| ==> os[j].entry == 0 || os[k].entry == 0
  {
  }

  lemma EntryIs(os: seq<Object>, out: Object, i: nat)
    requires Linked(os, out) && i < |os| && os[i].entry > 0
    requires forall j, k :: 0 <= j < k < |os| ==> os[j].entry == 0 || os[k].entry == 0
    ensures out.entry == Locate(out.symbols, NameOf(os[i], os[i].entry))
  {
    EntryKept(os, out.symbols, |os|, i);
  }
}
