/** The linker: it measures the units, copies their sections, sorts the definitions, resolves the
    imports and moves the relocations. */
module Linker {
  import opened Sorting
  import opened Objects
  import opened LinkSpec

  datatype LinkError =
    | UnitCount | InvalidUnit | MixedTargets | ManyEntries | MetadataLimit | SectionLimit | PayloadLimit
    | DuplicateDefinition | UnresolvedImport | ContractMismatch | InvalidResult

  datatype Result<T> = Ok(value: T) | Err(error: LinkError)

  /** Some definition of the name is exported. */
  ghost predicate Offered(os: seq<Object>, name: Text) {
    exists d :: IsDefinition(os, d) && d.symbol.name == name && Exported(d.symbol)
  }

  /** What an error says of the units. */
  ghost predicate Reason(os: seq<Object>, e: LinkError) {
    match e
    case UnitCount => |os| == 0 || |os| > MAX_UNITS
    case InvalidUnit => exists i: nat :: 0 <= i < |os| && !Valid(os[i])
    case MixedTargets => exists i: nat :: 0 <= i < |os| && os[i].target != os[0].target
    case ManyEntries => exists i, j :: 0 <= i < j < |os| && os[i].entry > 0 && os[j].entry > 0
    case MetadataLimit => SymbolsBefore(os, |os|) > MAX_SYMBOLS || RelocsBefore(os, |os|) > MAX_RELOCS
    case SectionLimit => exists i: nat, k: nat :: 0 <= i < |os| && 0 <= k < 3 && !Fits(os, i, k)
    case PayloadLimit => Total(os, |os|, 0) + Total(os, |os|, 1) + Total(os, |os|, 2) > LINK_BYTES
    case DuplicateDefinition => !DefinedOnce(os)
    case UnresolvedImport => exists i: nat, j: nat :: IsImport(os, i, j) && !Offered(os, os[i].symbols[j].name)
    case ContractMismatch => exists i: nat, j: nat :: IsImport(os, i, j) && Offered(os, os[i].symbols[j].name) && !ResolvedImport(os, i, j)
    case InvalidResult => false
  }

  // ----- Measuring -----

  datatype Measures = Measures(bases: seq<seq<nat>>, totals: seq<nat>, prefixes: seq<nat>)

  predicate Measured(os: seq<Object>, n: nat, m: Measures)
    requires n <= |os|
  {
    && |m.bases| == n && |m.totals| == 3 && |m.prefixes| == n + 1
    && (forall i :: 0 <= i < n ==> |m.bases[i]| == 3)
    && (forall i, k :: 0 <= i < n && 0 <= k < 3 ==> m.bases[i][k] == Base(os, i, k))
    && (forall k :: 0 <= k < 3 ==> m.totals[k] == Total(os, n, k))
    && (forall i :: 0 <= i <= n ==> m.prefixes[i] == SymbolsBefore(os, i))
  }

  lemma {:induction false} CountsGrow(os: seq<Object>, i: nat, n: nat)
    requires i <= n <= |os|
    ensures SymbolsBefore(os, i) <= SymbolsBefore(os, n) && RelocsBefore(os, i) <= RelocsBefore(os, n)
    decreases n
  {
    if i < n {
      CountsGrow(os, i, n - 1);
    }
  }

  method MeasureSections(os: seq<Object>, i: nat, totals: seq<nat>) returns (ok: bool, bases: seq<nat>, ends: seq<nat>)
    requires i < |os| && |os[i].sections| == 3
    requires |totals| == 3 && forall k :: 0 <= k < 3 ==> totals[k] == Total(os, i, k)
    ensures ok == forall k :: 0 <= k < 3 ==> Fits(os, i, k)
    ensures ok ==> |bases| == 3 && |ends| == 3
    ensures ok ==> forall k :: 0 <= k < 3 ==> bases[k] == Base(os, i, k) && ends[k] == Total(os, i + 1, k)
  {
    bases, ends := [], [];
    var k: nat := 0;
    while k < 3
      invariant k <= 3 && |bases| == k && |ends| == k
      invariant forall l :: 0 <= l < k ==> Fits(os, i, l) && bases[l] == Base(os, i, l) && ends[l] == Total(os, i + 1, l)
    {
      var base := (totals[k] + 15) / 16 * 16;
      if base > LINK_BYTES || |os[i].sections[k]| > LINK_BYTES - base {
        assert !Fits(os, i, k);
        return false, bases, ends;
      }
      bases := bases + [base];
      ends := ends + [base + |os[i].sections[k]|];
      k := k + 1;
    }
    ok := true;
  }

  predicate AnyEntry(os: seq<Object>, n: nat)
    requires n <= |os|
  {
    n > 0 && (os[n - 1].entry > 0 || AnyEntry(os, n - 1))
  }

  lemma {:induction false} EntriesBefore(os: seq<Object>, n: nat)
    requires n <= |os|
    ensures AnyEntry(os, n) <==> exists j :: 0 <= j < n && os[j].entry > 0
  {
    if n > 0 {
      EntriesBefore(os, n - 1);
    }
  }

  method MeasureUnit(os: seq<Object>, i: nat, m: Measures, relocs: nat, entries: nat) returns (r: Result<Measures>)
    requires i < |os| && Measured(os, i, m) && UnitsAgree(os, i) && SizesFit(os, i) && relocs == RelocsBefore(os, i)
    requires entries > 0 <==> AnyEntry(os, i)
    ensures r.Ok? ==> Measured(os, i + 1, r.value) && UnitsAgree(os, i + 1) && SizesFit(os, i + 1)
    ensures r.Err? ==> Reason(os, r.error)
  {
    var o := os[i];
    var valid := Validate(o);
    if !valid {
      return Err(InvalidUnit);
    }
    assert ValidSections(o);
    hide Valid;
    if o.target != os[0].target {
      return Err(MixedTargets);
    }
    EntriesBefore(os, i);
    if o.entry > 0 && entries > 0 {
      return Err(ManyEntries);
    }
    if |o.symbols| > MAX_SYMBOLS - m.prefixes[i] || |o.relocs| > MAX_RELOCS - relocs {
      CountsGrow(os, i + 1, |os|);
      return Err(MetadataLimit);
    }
    var ok, bases, ends := MeasureSections(os, i, m.totals);
    if !ok {
      return Err(SectionLimit);
    }
    r := Ok(Measures(m.bases + [bases], ends, m.prefixes + [m.prefixes[i] + |o.symbols|]));
  }

  method Measure(os: seq<Object>) returns (r: Result<Measures>)
    ensures r.Ok? ==> Accepted(os) && Measured(os, |os|, r.value)
    ensures r.Err? ==> Reason(os, r.error)
  {
    hide Base;
    if |os| == 0 || |os| > MAX_UNITS {
      return Err(UnitCount);
    }
    var m := Measures([], [0, 0, 0], [0]);
    var relocs, entries: nat := 0, 0;
    var i: nat := 0;
    while i < |os|
      invariant i <= |os| && Measured(os, i, m) && UnitsAgree(os, i) && SizesFit(os, i) && relocs == RelocsBefore(os, i)
      invariant entries > 0 <==> AnyEntry(os, i)
    {
      r := MeasureUnit(os, i, m, relocs, entries);
      if r.Err? {
        return;
      }
      m := r.value;
      relocs := relocs + |os[i].relocs|;
      entries := entries + if os[i].entry > 0 then 1 else 0;
      i := i + 1;
    }
    if m.totals[0] + m.totals[1] + m.totals[2] > LINK_BYTES {
      return Err(PayloadLimit);
    }
    r := Ok(m);
  }

  /** Units with an error cannot be linked. */
  lemma ReasonRejects(os: seq<Object>, e: LinkError)
    requires Reason(os, e)
    ensures !Linkable(os)
  {
    if e.UnresolvedImport? {
      var i: nat, j: nat :| IsImport(os, i, j) && !Offered(os, os[i].symbols[j].name);
      if ResolvedImport(os, i, j) {
        assert false;
      }
    }
  }

  // ----- Sections -----

  function Splice(s: seq<Byte>, at: nat, part: seq<Byte>): seq<Byte>
    requires at + |part| <= |s|
  {
    s[..at] + part + s[at + |part|..]
  }

  function Room(os: seq<Object>, i: nat, k: nat): seq<Byte>
    requires i <= |os|
  {
    Payload(os, i, k) + Zeros(if Total(os, |os|, k) >= Total(os, i, k) then Total(os, |os|, k) - Total(os, i, k) else 0)
  }

  lemma SpliceZeros(before: seq<Byte>, gap: nat, part: seq<Byte>, rest: nat)
    ensures Splice(before + Zeros(gap + |part| + rest), |before| + gap, part) == before + Zeros(gap) + part + Zeros(rest)
  {
  }

  /** Copying the next unit's section to its base fills the next part of the payload. */
  lemma RoomFills(os: seq<Object>, i: nat, k: nat)
    requires i < |os|
    ensures Base(os, i, k) + |SectionAt(os[i], k)| <= |Room(os, i, k)|
    ensures Splice(Room(os, i, k), Base(os, i, k), SectionAt(os[i], k)) == Room(os, i + 1, k)
  {
    PayloadSize(os, i, k);
    AlignUp(Total(os, i, k));
    TotalGrows(os, i + 1, |os|, k);
    SpliceZeros(Payload(os, i, k), Base(os, i, k) - Total(os, i, k), SectionAt(os[i], k), Total(os, |os|, k) - Total(os, i + 1, k));
  }

  lemma RoomEnds(os: seq<Object>, k: nat)
    ensures Room(os, 0, k) == Zeros(Total(os, |os|, k)) && Room(os, |os|, k) == Payload(os, |os|, k)
  {
  }

  method CopyUnit(os: seq<Object>, i: nat, m: Measures, before: seq<seq<Byte>>) returns (sections: seq<seq<Byte>>)
    requires i < |os| && Measured(os, |os|, m) && |os[i].sections| == 3
    requires |before| == 3 && forall k :: 0 <= k < 3 ==> before[k] == Room(os, i, k)
    ensures |sections| == 3 && forall k :: 0 <= k < 3 ==> sections[k] == Room(os, i + 1, k)
  {
    sections := before;
    var k := 0;
    while k < 3
      invariant 0 <= k <= 3 && |sections| == 3
      invariant forall l :: 0 <= l < k ==> sections[l] == Room(os, i + 1, l)
      invariant forall l :: k <= l < 3 ==> sections[l] == Room(os, i, l)
    {
      RoomFills(os, i, k);
      sections := sections[k := Splice(sections[k], m.bases[i][k], os[i].sections[k])];
      k := k + 1;
    }
  }

  method CopySections(os: seq<Object>, m: Measures) returns (sections: seq<seq<Byte>>)
    requires Measured(os, |os|, m) && forall i :: 0 <= i < |os| ==> |os[i].sections| == 3
    ensures LinkedSections(os, sections)
  {
    sections := [Zeros(m.totals[0]), Zeros(m.totals[1]), Zeros(m.totals[2])];
    RoomEnds(os, 0);
    RoomEnds(os, 1);
    RoomEnds(os, 2);
    var i: nat := 0;
    while i < |os|
      invariant i <= |os| && |sections| == 3 && forall k :: 0 <= k < 3 ==> sections[k] == Room(os, i, k)
    {
      sections := CopyUnit(os, i, m, sections);
      i := i + 1;
    }
  }

  // ----- Definitions -----

  predicate DefinitionOrder(a: Definition, b: Definition) {
    NameOrder(a.symbol, b.symbol)
  }

  lemma DefinitionsAreOrdered()
    ensures Preorder(DefinitionOrder)
  {
    NamesAreOrdered();
    forall a, b, c
      ensures DefinitionOrder(a, b) && DefinitionOrder(b, c) ==> DefinitionOrder(a, c)
    {
      NameOrderTrans(a.symbol, b.symbol, c.symbol);
    }
    forall a, b
      ensures DefinitionOrder(a, b) || DefinitionOrder(b, a)
    {
      NameOrderTotal(a.symbol, b.symbol);
    }
  }

  method Gather(os: seq<Object>) returns (order: seq<Definition>)
    ensures order == Definitions(os, |os|, 0)
  {
    order := [];
    var i: nat := 0;
    while i < |os|
      invariant i <= |os| && order == Definitions(os, i, 0)
    {
      var j: nat := 0;
      while j < |os[i].symbols|
        invariant j <= |os[i].symbols| && order == Definitions(os, i, j)
      {
        if !Imported(os[i].symbols[j]) {
          order := order + [Definition(os[i].symbols[j], i, j)];
        }
        j := j + 1;
      }
      i := i + 1;
    }
  }

  /** The definitions of the units, each once, by name. */
  ghost predicate Arranged(os: seq<Object>, order: seq<Definition>) {
    && Distinct(order) && Ordered(order, DefinitionOrder)
    && forall d :: d in order <==> IsDefinition(os, d)
  }

  method Arrange(os: seq<Object>) returns (order: seq<Definition>)
    ensures Arranged(os, order)
  {
    var gathered := Gather(os);
    DefinitionsAre(os, |os|, 0);
    DefinitionsAreOrdered();
    SortSorts(gathered, DefinitionOrder);
    order := Sort(gathered, DefinitionOrder);
    RearrangedDistinct(gathered, order);
    SameElements(gathered, order);
    forall d
      ensures d in order <==> IsDefinition(os, d)
    {
      assert IsDefinition(os, d) ==> Earlier(d.unit, d.index, |os|, 0);
    }
  }

  function Slot(os: seq<Object>, i: nat, j: nat): nat
    requires i <= |os|
  {
    SymbolsBefore(os, i) + j
  }

  lemma SlotsApart(os: seq<Object>, i: nat, j: nat, n: nat, m: nat)
    requires IsSymbol(os, i, j) && IsSymbol(os, n, m) && (i != n || j != m)
    ensures Slot(os, i, j) != Slot(os, n, m)
  {
    if i < n {
      CountsGrow(os, i + 1, n);
    } else if n < i {
      CountsGrow(os, n + 1, i);
    }
  }

  lemma SlotInside(os: seq<Object>, i: nat, j: nat)
    requires IsSymbol(os, i, j)
    ensures Slot(os, i, j) < SymbolsBefore(os, |os|)
  {
    CountsGrow(os, i + 1, |os|);
  }

  predicate Defined(os: seq<Object>, order: seq<Definition>, j: nat, symbols: seq<Symbol>, places: seq<nat>)
    requires j <= |order|
  {
    && (forall t :: 0 <= t < |order| ==> IsDefinition(os, order[t]))
    && |places| == SymbolsBefore(os, |os|) && |symbols| == j && Ordered(symbols, NameBefore)
    && (forall t :: 0 <= t < j ==> symbols[t] == Moved(os, order[t]))
    && forall t :: 0 <= t < j ==> Slot(os, order[t].unit, order[t].index) < |places| &&
                                  places[Slot(os, order[t].unit, order[t].index)] == t + 1
  }

  lemma DefineNext(os: seq<Object>, order: seq<Definition>, j: nat, symbols: seq<Symbol>, places: seq<nat>)
    requires Arranged(os, order) && j < |order| && Defined(os, order, j, symbols, places)
    requires j > 0 ==> order[j - 1].symbol.name != order[j].symbol.name
    ensures Slot(os, order[j].unit, order[j].index) < |places|
    ensures Defined(os, order, j + 1, symbols + [Moved(os, order[j])], places[Slot(os, order[j].unit, order[j].index) := j + 1])
  {
    var d := order[j];
    SlotInside(os, d.unit, d.index);
    forall t | 0 <= t < j
      ensures Slot(os, order[t].unit, order[t].index) != Slot(os, d.unit, d.index)
      ensures NameBefore(symbols[t], Moved(os, d))
    {
      SlotsApart(os, order[t].unit, order[t].index, d.unit, d.index);
      assert DefinitionOrder(order[j - 1], order[j]);
      if t < j - 1 {
        assert NameBefore(symbols[t], symbols[j - 1]);
        BeforeTrans(symbols[t].name, symbols[j - 1].name, d.symbol.name);
      }
    }
  }

  method DefineOne(os: seq<Object>, order: seq<Definition>, m: Measures, j: nat, defined: seq<Symbol>, before: seq<nat>)
    returns (symbols: seq<Symbol>, places: seq<nat>)
    requires Measured(os, |os|, m) && Arranged(os, order) && j < |order| && Defined(os, order, j, defined, before)
    requires IsDefinition(os, order[j]) && Valid(os[order[j].unit]) && (j > 0 ==> order[j - 1].symbol.name != order[j].symbol.name)
    ensures Defined(os, order, j + 1, symbols, places)
  {
    var d := order[j];
    DefinedSection(os, d);
    DefineNext(os, order, j, defined, before);
    symbols := defined + [d.symbol.(offset := d.symbol.offset + m.bases[d.unit][d.symbol.section - 1])];
    places := before[m.prefixes[d.unit] + d.index := j + 1];
  }

  method Define(os: seq<Object>, order: seq<Definition>, m: Measures) returns (ok: bool, symbols: seq<Symbol>, places: seq<nat>)
    requires (forall i :: 0 <= i < |os| ==> Valid(os[i])) && Measured(os, |os|, m) && Arranged(os, order)
    ensures ok ==> Defined(os, order, |order|, symbols, places)
    ensures !ok ==> !DefinedOnce(os)
  {
    symbols, places := [], seq(m.prefixes[|os|], _ => 0);
    assert forall t :: 0 <= t < |order| ==> order[t] in order;
    var j := 0;
    while j < |order|
      invariant 0 <= j <= |order| && Defined(os, order, j, symbols, places)
    {
      var d := order[j];
      assert d in order;
      if j > 0 && order[j - 1].symbol.name == d.symbol.name {
        assert order[j - 1] in order;
        return false, symbols, places;
      }
      symbols, places := DefineOne(os, order, m, j, symbols, places);
      j := j + 1;
    }
    ok := true;
  }

  lemma DefinedSection(os: seq<Object>, d: Definition)
    requires IsDefinition(os, d) && Valid(os[d.unit])
    ensures 1 <= d.symbol.section <= 3
  {
    assert ValidSymbol(os[d.unit].sections, os[d.unit].symbols[d.index]);
  }

  // ----- Imports -----

  /** The place recorded for a symbol is that of the definition of its name. */
  predicate Known(os: seq<Object>, symbols: seq<Symbol>, places: seq<nat>, i: nat, j: nat)
    requires IsSymbol(os, i, j)
  {
    Slot(os, i, j) < |places| && places[Slot(os, i, j)] == Locate(symbols, os[i].symbols[j].name) > 0
  }

  lemma DefinitionsKnown(os: seq<Object>, order: seq<Definition>, symbols: seq<Symbol>, places: seq<nat>)
    requires Arranged(os, order) && Defined(os, order, |order|, symbols, places)
    ensures LinkedSymbols(os, symbols) && DefinedOnce(os)
    ensures forall i, j :: IsSymbol(os, i, j) && !IsImport(os, i, j) ==> Known(os, symbols, places, i, j)
  {
    forall s
      ensures s in symbols <==> IsMoved(os, s)
    {
      MovedFrom(os, order, symbols, places, s);
    }
    forall d, e | IsDefinition(os, d) && IsDefinition(os, e) && d.symbol.name == e.symbol.name
      ensures d == e
    {
      DefinitionKnown(os, order, symbols, places, d);
      DefinitionKnown(os, order, symbols, places, e);
    }
    forall i: nat, j: nat | IsSymbol(os, i, j) && !IsImport(os, i, j)
      ensures Known(os, symbols, places, i, j)
    {
      DefinitionKnown(os, order, symbols, places, Definition(os[i].symbols[j], i, j));
    }
  }

  lemma MovedFrom(os: seq<Object>, order: seq<Definition>, symbols: seq<Symbol>, places: seq<nat>, s: Symbol)
    requires Arranged(os, order) && Defined(os, order, |order|, symbols, places)
    ensures s in symbols <==> IsMoved(os, s)
  {
    if s in symbols {
      var t :| 0 <= t < |symbols| && symbols[t] == s;
      assert order[t] in order;
      assert IsDefinition(os, order[t]);
    }
    if IsMoved(os, s) {
      var d :| IsDefinition(os, d) && s == Moved(os, d);
      assert d in order;
      var t :| 0 <= t < |order| && order[t] == d;
      assert symbols[t] == s;
    }
  }

  lemma DefinitionKnown(os: seq<Object>, order: seq<Definition>, symbols: seq<Symbol>, places: seq<nat>, d: Definition)
    requires Arranged(os, order) && Defined(os, order, |order|, symbols, places) && IsDefinition(os, d)
    ensures Known(os, symbols, places, d.unit, d.index)
    ensures var t := Locate(symbols, d.symbol.name); 0 < t <= |order| && order[t - 1] == d
  {
    assert d in order;
    var t :| 0 <= t < |order| && order[t] == d;
    LocateAt(symbols, t);
  }

  /** Binary search. */
  method Find(symbols: seq<Symbol>, name: Text) returns (t: nat)
    requires Ordered(symbols, NameBefore)
    ensures t == Locate(symbols, name)
  {
    var lo, hi := 0, |symbols|;
    while lo < hi
      invariant 0 <= lo <= hi <= |symbols|
      invariant forall i :: 0 <= i < lo ==> Before(symbols[i].name, name)
      invariant forall i :: hi <= i < |symbols| ==> !Before(symbols[i].name, name)
    {
      var mid := lo + (hi - lo) / 2;
      if Before(symbols[mid].name, name) {
        forall i | 0 <= i <= mid
          ensures Before(symbols[i].name, name)
        {
          if i < mid {
            assert NameBefore(symbols[i], symbols[mid]);
            BeforeTrans(symbols[i].name, symbols[mid].name, name);
          }
        }
        lo := mid + 1;
      } else {
        forall i | mid <= i < |symbols|
          ensures !Before(symbols[i].name, name)
        {
          if mid < i && Before(symbols[i].name, name) {
            assert NameBefore(symbols[mid], symbols[i]);
            BeforeTrans(symbols[mid].name, symbols[i].name, name);
          }
        }
        hi := mid;
      }
    }
    BeforeTotal(name, name);
    LocateFinds(symbols, name);
    if lo < |symbols| && symbols[lo].name == name {
      LocateAt(symbols, lo);
      t := lo + 1;
    } else {
      t := 0;
      NotThere(symbols, name, lo);
    }
  }

  lemma NotThere(symbols: seq<Symbol>, name: Text, lo: nat)
    requires Ordered(symbols, NameBefore) && lo <= |symbols| && (lo < |symbols| ==> symbols[lo].name != name)
    requires forall i :: 0 <= i < lo ==> Before(symbols[i].name, name)
    requires forall i :: lo <= i < |symbols| ==> !Before(symbols[i].name, name)
    ensures Locate(symbols, name) == 0
  {
    var t := Locate(symbols, name);
    LocateFinds(symbols, name);
    BeforeTotal(name, name);
    if t > 0 {
      assert false;
    }
  }

  /** The imports before (n, m) are resolved. */
  ghost predicate ImportsKnown(os: seq<Object>, symbols: seq<Symbol>, places: seq<nat>, n: nat, m: nat) {
    && |places| == SymbolsBefore(os, |os|)
    && (forall i, j :: IsSymbol(os, i, j) && (!IsImport(os, i, j) || Earlier(i, j, n, m)) ==> Known(os, symbols, places, i, j))
    && forall i, j :: IsImport(os, i, j) && Earlier(i, j, n, m) ==> ResolvedImport(os, i, j)
  }

  lemma KnowNext(os: seq<Object>, symbols: seq<Symbol>, places: seq<nat>, n: nat, m: nat)
    requires IsImport(os, n, m) && ResolvedImport(os, n, m) && ImportsKnown(os, symbols, places, n, m)
    requires Locate(symbols, os[n].symbols[m].name) > 0
    ensures Slot(os, n, m) < |places|
    ensures ImportsKnown(os, symbols, places[Slot(os, n, m) := Locate(symbols, os[n].symbols[m].name)], n, m + 1)
  {
    SlotInside(os, n, m);
    var more := places[Slot(os, n, m) := Locate(symbols, os[n].symbols[m].name)];
    forall i, j | IsSymbol(os, i, j) && (!IsImport(os, i, j) || Earlier(i, j, n, m + 1))
      ensures Known(os, symbols, more, i, j)
    {
      if i != n || j != m {
        SlotsApart(os, i, j, n, m);
        assert Known(os, symbols, places, i, j);
      }
    }
  }

  /** Whether the definition of the import's name is what it asks for. */
  lemma OfferedIs(os: seq<Object>, symbols: seq<Symbol>, i: nat, j: nat)
    requires LinkedSymbols(os, symbols) && DefinedOnce(os) && IsImport(os, i, j)
    ensures var s, t := os[i].symbols[j], Locate(symbols, os[i].symbols[j].name);
            && (Offered(os, s.name) <==> t > 0 && Exported(symbols[t - 1]))
            && (ResolvedImport(os, i, j) <==> t > 0 && Satisfies(s, symbols[t - 1]))
  {
    var s, t := os[i].symbols[j], Locate(symbols, os[i].symbols[j].name);
    LocateFinds(symbols, s.name);
    if t > 0 {
      assert symbols[t - 1] in symbols;
      var d :| IsDefinition(os, d) && symbols[t - 1] == Moved(os, d);
    }
    forall d | IsDefinition(os, d) && d.symbol.name == s.name
      ensures t > 0 && symbols[t - 1] == Moved(os, d)
    {
      NamedDefinition(os, symbols, d);
    }
  }

  method ResolveUnit(os: seq<Object>, n: nat, m: Measures, symbols: seq<Symbol>, before: seq<nat>)
    returns (r: Result<seq<nat>>)
    requires n < |os| && Measured(os, |os|, m) && LinkedSymbols(os, symbols) && DefinedOnce(os)
    requires ImportsKnown(os, symbols, before, n, 0)
    ensures r.Ok? ==> ImportsKnown(os, symbols, r.value, n, |os[n].symbols|)
    ensures r.Err? ==> Reason(os, r.error)
  {
    var places: seq<nat> := before;
    var j: nat := 0;
    while j < |os[n].symbols|
      invariant j <= |os[n].symbols| && ImportsKnown(os, symbols, places, n, j)
    {
      var s := os[n].symbols[j];
      if Imported(s) {
        OfferedIs(os, symbols, n, j);
        var t := Find(symbols, s.name);
        if t == 0 || !Exported(symbols[t - 1]) {
          return Err(UnresolvedImport);
        }
        var d := symbols[t - 1];
        LocateFinds(symbols, s.name);
        if Role(s) != Role(d) || s.contract != d.contract {
          assert !ResolvedImport(os, n, j);
          return Err(ContractMismatch);
        }
        KnowNext(os, symbols, places, n, j);
        places := places[m.prefixes[n] + j := t];
      } else {
        KnownAlready(os, symbols, places, n, j);
      }
      j := j + 1;
    }
    r := Ok(places);
  }

  lemma KnownAlready(os: seq<Object>, symbols: seq<Symbol>, places: seq<nat>, n: nat, m: nat)
    requires IsSymbol(os, n, m) && !IsImport(os, n, m) && ImportsKnown(os, symbols, places, n, m)
    ensures ImportsKnown(os, symbols, places, n, m + 1)
  {
  }

  lemma NextUnit(os: seq<Object>, symbols: seq<Symbol>, places: seq<nat>, n: nat)
    requires n < |os| && ImportsKnown(os, symbols, places, n, |os[n].symbols|)
    ensures ImportsKnown(os, symbols, places, n + 1, 0)
  {
    forall i, j | IsSymbol(os, i, j) && Earlier(i, j, n + 1, 0)
      ensures Earlier(i, j, n, |os[n].symbols|)
    {
    }
  }

  lemma EntryKnown(os: seq<Object>, symbols: seq<Symbol>, places: seq<nat>, i: nat)
    requires i < |os| && Valid(os[i]) && os[i].entry > 0 && ImportsKnown(os, symbols, places, i, |os[i].symbols|)
    ensures Slot(os, i, os[i].entry - 1) < |places|
    ensures places[Slot(os, i, os[i].entry - 1)] == EntryOf(os, symbols, i + 1)
  {
    assert IsSymbol(os, i, os[i].entry - 1) && Earlier(i, os[i].entry - 1, i, |os[i].symbols|);
  }

  method ResolveImports(os: seq<Object>, m: Measures, symbols: seq<Symbol>, defined: seq<nat>)
    returns (r: Result<(seq<nat>, nat)>)
    requires (forall i :: 0 <= i < |os| ==> Valid(os[i])) && Measured(os, |os|, m)
    requires LinkedSymbols(os, symbols) && DefinedOnce(os) && ImportsKnown(os, symbols, defined, 0, 0)
    ensures r.Ok? ==> ImportsKnown(os, symbols, r.value.0, |os|, 0) && r.value.1 == EntryOf(os, symbols, |os|)
    ensures r.Err? ==> Reason(os, r.error)
  {
    var places: seq<nat>, entry: nat := defined, 0;
    var i: nat := 0;
    while i < |os|
      invariant i <= |os| && ImportsKnown(os, symbols, places, i, 0) && entry == EntryOf(os, symbols, i)
    {
      var u := ResolveUnit(os, i, m, symbols, places);
      if u.Err? {
        return Err(u.error);
      }
      places := u.value;
      if os[i].entry > 0 {
        EntryKnown(os, symbols, places, i);
        entry := places[m.prefixes[i] + os[i].entry - 1];
      }
      NextUnit(os, symbols, places, i);
      i := i + 1;
    }
    r := Ok((places, entry));
  }

  lemma AllResolved(os: seq<Object>, symbols: seq<Symbol>, places: seq<nat>)
    requires ImportsKnown(os, symbols, places, |os|, 0)
    ensures ImportsResolved(os)
    ensures forall i, j :: IsSymbol(os, i, j) ==> Known(os, symbols, places, i, j)
  {
    forall i, j | IsSymbol(os, i, j)
      ensures Earlier(i, j, |os|, 0)
    {
    }
  }

  // ----- Relocations -----

  predicate SiteOrder(a: Reloc, b: Reloc) {
    a.section < b.section || (a.section == b.section && a.offset <= b.offset)
  }

  lemma MoveOne(os: seq<Object>, symbols: seq<Symbol>, places: seq<nat>, i: nat, j: nat)
    requires IsReloc(os, i, j) && Valid(os[i])
    requires forall a, b :: IsSymbol(os, a, b) ==> Known(os, symbols, places, a, b)
    ensures var r := os[i].relocs[j];
            && 1 <= r.section <= 3 && 1 <= r.target <= |os[i].symbols| && Slot(os, i, r.target - 1) < |places|
            && MovedReloc(os, symbols, i, j) == r.(offset := r.offset + Base(os, i, r.section - 1), target := places[Slot(os, i, r.target - 1)])
  {
    var r := os[i].relocs[j];
    RelocFacts(os, i, j);
    assert Known(os, symbols, places, i, r.target - 1);
  }

  method MoveReloc(os: seq<Object>, i: nat, j: nat, m: Measures, ghost symbols: seq<Symbol>, places: seq<nat>) returns (r: Reloc)
    requires IsReloc(os, i, j) && Valid(os[i]) && Measured(os, |os|, m)
    requires forall a, b :: IsSymbol(os, a, b) ==> Known(os, symbols, places, a, b)
    ensures r == MovedReloc(os, symbols, i, j)
  {
    MoveOne(os, symbols, places, i, j);
    r := os[i].relocs[j];
    r := r.(offset := r.offset + m.bases[i][r.section - 1], target := places[m.prefixes[i] + r.target - 1]);
  }

  method MoveUnit(os: seq<Object>, i: nat, m: Measures, ghost symbols: seq<Symbol>, places: seq<nat>, before: seq<Reloc>)
    returns (relocs: seq<Reloc>)
    requires i < |os| && Valid(os[i]) && Measured(os, |os|, m) && before == MovedRelocs(os, symbols, i, 0)
    requires forall a, b :: IsSymbol(os, a, b) ==> Known(os, symbols, places, a, b)
    ensures relocs == MovedRelocs(os, symbols, i, |os[i].relocs|)
  {
    relocs := before;
    var j: nat := 0;
    while j < |os[i].relocs|
      invariant j <= |os[i].relocs| && relocs == MovedRelocs(os, symbols, i, j)
    {
      var r := MoveReloc(os, i, j, m, symbols, places);
      relocs := relocs + [r];
      j := j + 1;
    }
  }

  method MoveRelocs(os: seq<Object>, m: Measures, ghost symbols: seq<Symbol>, places: seq<nat>) returns (relocs: seq<Reloc>)
    requires (forall i :: 0 <= i < |os| ==> Valid(os[i])) && Measured(os, |os|, m)
    requires forall a, b :: IsSymbol(os, a, b) ==> Known(os, symbols, places, a, b)
    ensures relocs == MovedRelocs(os, symbols, |os|, 0)
  {
    relocs := [];
    var i: nat := 0;
    while i < |os|
      invariant i <= |os| && relocs == MovedRelocs(os, symbols, i, 0)
    {
      relocs := MoveUnit(os, i, m, symbols, places, relocs);
      i := i + 1;
    }
  }

  lemma AnyTwoApart(os: seq<Object>, symbols: seq<Symbol>, r: Reloc, s: Reloc)
    requires Accepted(os) && IsMovedReloc(os, symbols, r) && IsMovedReloc(os, symbols, s) && r != s
    ensures RelocBefore(r, s) || RelocBefore(s, r)
  {
    var i: nat, j: nat :| IsReloc(os, i, j) && r == MovedReloc(os, symbols, i, j);
    var n: nat, m: nat :| IsReloc(os, n, m) && s == MovedReloc(os, symbols, n, m);
    if Earlier(i, j, n, m) {
      SitesApart(os, symbols, i, j, n, m);
    } else {
      SitesApart(os, symbols, n, m, i, j);
    }
  }

  method ArrangeRelocs(os: seq<Object>, symbols: seq<Symbol>, moved: seq<Reloc>) returns (relocs: seq<Reloc>)
    requires Accepted(os) && moved == MovedRelocs(os, symbols, |os|, 0)
    ensures LinkedRelocs(os, symbols, relocs)
  {
    relocs := Sort(moved, SiteOrder);
    RelocsArranged(os, symbols, relocs);
  }

  lemma MovedRelocsAll(os: seq<Object>, symbols: seq<Symbol>, r: Reloc)
    ensures r in MovedRelocs(os, symbols, |os|, 0) <==> IsMovedReloc(os, symbols, r)
  {
    MovedRelocsAre(os, symbols, |os|, 0);
    if IsMovedReloc(os, symbols, r) {
      var i: nat, j: nat :| IsReloc(os, i, j) && r == MovedReloc(os, symbols, i, j);
      assert Earlier(i, j, |os|, 0);
    }
  }

  lemma RelocsArranged(os: seq<Object>, symbols: seq<Symbol>, relocs: seq<Reloc>)
    requires Accepted(os) && relocs == Sort(MovedRelocs(os, symbols, |os|, 0), SiteOrder)
    ensures LinkedRelocs(os, symbols, relocs)
  {
    var moved := MovedRelocs(os, symbols, |os|, 0);
    SortSorts(moved, SiteOrder);
    MovedRelocsDistinct(os, symbols, |os|, 0);
    RearrangedDistinct(moved, relocs);
    SameElements(moved, relocs);
    forall r
      ensures r in relocs <==> IsMovedReloc(os, symbols, r)
    {
      MovedRelocsAll(os, symbols, r);
    }
    forall t, u | 0 <= t < u < |relocs|
      ensures RelocBefore(relocs[t], relocs[u])
    {
      assert relocs[t] in relocs && relocs[u] in relocs;
      AnyTwoApart(os, symbols, relocs[t], relocs[u]);
      assert SiteOrder(relocs[t], relocs[u]);
    }
  }

  // ----- The whole -----

  method LinkAccepted(os: seq<Object>, m: Measures) returns (r: Result<Object>)
    requires Accepted(os) && Measured(os, |os|, m)
    ensures r.Ok? ==> Linkable(os) && Linked(os, r.value)
    ensures r.Err? ==> Reason(os, r.error)
  {
    assert Valid(os[0]);
    var sections := CopySections(os, m);
    var order := Arrange(os);
    var ok, symbols, defined := Define(os, order, m);
    if !ok {
      return Err(DuplicateDefinition);
    }
    DefinitionsKnown(os, order, symbols, defined);
    var resolved := ResolveImports(os, m, symbols, defined);
    if resolved.Err? {
      return Err(resolved.error);
    }
    AllResolved(os, symbols, resolved.value.0);
    var moved := MoveRelocs(os, m, symbols, resolved.value.0);
    var relocs := ArrangeRelocs(os, symbols, moved);
    var out := Object(os[0].target, resolved.value.1, sections, symbols, relocs);
    LinkedIsValid(os, out);
    ok := Validate(out);
    if !ok {
      return Err(InvalidResult);
    }
    r := Ok(out);
  }

  /** It succeeds exactly when the units can be linked; the object is then their link, and valid.
      An error says what is wrong with the units, and the result itself never is. */
  method Link(os: seq<Object>) returns (r: Result<Object>)
    ensures r.Ok? <==> Linkable(os)
    ensures r.Ok? ==> Linked(os, r.value) && Valid(r.value)
    ensures r.Err? ==> Reason(os, r.error)
  {
    var m := Measure(os);
    if m.Err? {
      return Err(m.error);
    }
    r := LinkAccepted(os, m.value);
    if r.Err? {
      ReasonRejects(os, r.error);
    } else {
      LinkedIsValid(os, r.value);
    }
  }
}
