/** What can be linked, written out, and where sections begin. */
module LinkRules {
  import opened Objects
  import opened LinkSpec
  import opened ObjectRules

  /** Sections begin at the first multiple of sixteen behind the section of the unit before. */
  lemma BaseIs(os: seq<Object>, i: nat, k: nat)
    requires i < |os| && k < |os[i].sections|
    ensures Base(os, 0, k) == 0
    ensures i + 1 <= |os| && var end := Base(os, i, k) + |os[i].sections[k]|;
            end <= Base(os, i + 1, k) < end + 16 && Base(os, i + 1, k) % 16 == 0
  {
    assert Total(os, 0, k) == 0;
    AlignUp(Total(os, i + 1, k));
  }

  /** The bytes between the section of a unit and that of the next one are zero. */
  lemma {:induction false} GapsAreZero(os: seq<Object>, n: nat, i: nat, k: nat, p: nat)
    requires i + 1 < n <= |os| && Base(os, i, k) + |SectionAt(os[i], k)| <= p < Base(os, i + 1, k)
    ensures p < |Payload(os, n, k)| && Payload(os, n, k)[p] == 0
    decreases n
  {
    hide SectionAt;
    var before := Payload(os, n - 1, k);
    PayloadSize(os, n - 1, k);
    AlignUp(|before|);
    if i + 1 < n - 1 {
      GapsAreZero(os, n - 1, i, k, p);
    } else {
      assert Total(os, i + 1, k) == Base(os, i, k) + |SectionAt(os[i], k)|;
    }
  }

  function Symbols(os: seq<Object>): nat {
    if os == [] then 0 else Symbols(os[..|os| - 1]) + |os[|os| - 1].symbols|
  }

  function Relocations(os: seq<Object>): nat {
    if os == [] then 0 else Relocations(os[..|os| - 1]) + |os[|os| - 1].relocs|
  }

  lemma {:induction false} CountsAre(os: seq<Object>, n: nat)
    requires n <= |os|
    ensures SymbolsBefore(os, n) == Symbols(os[..n]) && RelocsBefore(os, n) == Relocations(os[..n])
  {
    if n > 0 {
      CountsAre(os, n - 1);
      assert os[..n][..n - 1] == os[..n - 1] && os[..n][n - 1] == os[n - 1];
    }
  }

  /** Symbol j of unit i is an import, of flags 10 or 12, or a definition. */
  predicate Imports(os: seq<Object>, i: nat, j: nat) {
    i < |os| && j < |os[i].symbols| && (os[i].symbols[j].flags == 10 || os[i].symbols[j].flags == 12)
  }

  predicate Defines(os: seq<Object>, i: nat, j: nat) {
    i < |os| && j < |os[i].symbols| && os[i].symbols[j].flags != 10 && os[i].symbols[j].flags != 12
  }

  /** No name is defined twice. */
  ghost predicate NoClash(os: seq<Object>) {
    forall i: nat, j: nat, k: nat, l: nat :: Defines(os, i, j) && Defines(os, k, l) && os[i].symbols[j].name == os[k].symbols[l].name ==> i == k && j == l
  }

  /** Symbol l of unit k is an exported function or variable, of the name and contract that are wanted. */
  predicate Answers(os: seq<Object>, k: nat, l: nat, wanted: Symbol) {
    && k < |os| && l < |os[k].symbols|
    && var d := os[k].symbols[l];
       d.name == wanted.name && d.contract == wanted.contract && d.flags == if wanted.flags == 10 then 3 else 5
  }

  ghost predicate AllAnswered(os: seq<Object>) {
    forall i: nat, j: nat :: Imports(os, i, j) ==> exists k: nat, l: nat :: Answers(os, k, l, os[i].symbols[j])
  }

  /** From one to 64 valid units for one target, with no more than one entry, 65536 symbols, 1048576
      relocations and 64 MiB of sections with their gaps; no name defined twice, and for every import
      an exported definition of its kind and contract. */
  lemma LinkableExactly(os: seq<Object>)
    ensures Linkable(os) <==>
      && 1 <= |os| <= 64 && (forall i :: 0 <= i < |os| ==> Valid(os[i]) && os[i].target == os[0].target)
      && (forall i, j :: 0 <= i < j < |os| ==> os[i].entry == 0 || os[j].entry == 0)
      && Symbols(os) <= 65536 && Relocations(os) <= 1048576
      && |Payload(os, |os|, 0)| + |Payload(os, |os|, 1)| + |Payload(os, |os|, 2)| <= 67108864
      && NoClash(os) && AllAnswered(os)
  {
    hide Valid, SymbolsBefore, RelocsBefore, Payload, Total, Base, DefinedOnce, ImportsResolved, NoClash, AllAnswered, SizesFit;
    CountsAre(os, |os|);
    assert os[..|os|] == os;
    PayloadSize(os, |os|, 0);
    PayloadSize(os, |os|, 1);
    PayloadSize(os, |os|, 2);
    if forall i :: 0 <= i < |os| ==> Valid(os[i]) {
      DefinedOnceIs(os);
      ResolvedIs(os);
    }
    SizesAre(os);
  }

  lemma SizesAre(os: seq<Object>)
    ensures Total(os, |os|, 0) + Total(os, |os|, 1) + Total(os, |os|, 2) <= 67108864 ==>
              (SizesFit(os, |os|) <==> SymbolsBefore(os, |os|) <= 65536 && RelocsBefore(os, |os|) <= 1048576)
    ensures SizesFit(os, |os|) ==> SymbolsBefore(os, |os|) <= 65536 && RelocsBefore(os, |os|) <= 1048576
  {
    hide Fits, Total, SymbolsBefore, RelocsBefore;
    if Total(os, |os|, 0) + Total(os, |os|, 1) + Total(os, |os|, 2) <= 67108864 {
      forall i, k | 0 <= i < |os| && 0 <= k < 3
        ensures Fits(os, i, k)
      {
        FitsThere(os, i, k);
      }
    }
  }

  lemma FitsThere(os: seq<Object>, i: nat, k: nat)
    requires i < |os| && Total(os, |os|, k) <= 67108864
    ensures Fits(os, i, k)
  {
    hide SectionAt;
    TotalGrows(os, i + 1, |os|, k);
  }

  /** Imports and roles by their flags. */
  lemma KindsAre(o: Object, j: nat)
    requires Valid(o) && j < |o.symbols|
    ensures var s := o.symbols[j];
            && s.flags in {2, 3, 4, 5, 10, 12} && (Imported(s) <==> s.flags == 10 || s.flags == 12)
            && (Exported(s) <==> s.flags == 3 || s.flags == 5) && Role(s) == if s.flags in {2, 3, 10} then FUNCTION else VARIABLE
  {
    assert ValidSymbol(o.sections, o.symbols[j]);
    FlagsAre(o.symbols[j]);
  }

  lemma DefinesIs(os: seq<Object>, i: nat, j: nat)
    requires forall i :: 0 <= i < |os| ==> Valid(os[i])
    ensures Defines(os, i, j) <==> IsSymbol(os, i, j) && !Imported(os[i].symbols[j])
    ensures Imports(os, i, j) <==> IsImport(os, i, j)
  {
    if IsSymbol(os, i, j) {
      KindsAre(os[i], j);
    }
  }

  lemma DefinedOnceIs(os: seq<Object>)
    requires forall i :: 0 <= i < |os| ==> Valid(os[i])
    ensures DefinedOnce(os) <==> NoClash(os)
  {
    hide Valid, Imported;
    forall i: nat, j: nat
      ensures Defines(os, i, j) <==> IsSymbol(os, i, j) && !Imported(os[i].symbols[j])
    {
      DefinesIs(os, i, j);
    }
    if DefinedOnce(os) {
      forall i: nat, j: nat, k: nat, l: nat | Defines(os, i, j) && Defines(os, k, l) && os[i].symbols[j].name == os[k].symbols[l].name
        ensures i == k && j == l
      {
        var d, e := Definition(os[i].symbols[j], i, j), Definition(os[k].symbols[l], k, l);
        assert IsDefinition(os, d) && IsDefinition(os, e);
      }
    }
    if NoClash(os) {
      forall d, e | IsDefinition(os, d) && IsDefinition(os, e) && d.symbol.name == e.symbol.name
        ensures d == e
      {
        assert Defines(os, d.unit, d.index) && Defines(os, e.unit, e.index);
      }
    }
  }

  lemma AnswersIs(os: seq<Object>, i: nat, j: nat, k: nat, l: nat)
    requires (forall i :: 0 <= i < |os| ==> Valid(os[i])) && IsImport(os, i, j) && IsSymbol(os, k, l)
    ensures Answers(os, k, l, os[i].symbols[j]) <==> Satisfies(os[i].symbols[j], os[k].symbols[l]) && !Imported(os[k].symbols[l])
  {
    hide Valid, Imported, Exported, Role;
    KindsAre(os[i], j);
    KindsAre(os[k], l);
  }

  lemma ResolvedIs(os: seq<Object>)
    requires forall i :: 0 <= i < |os| ==> Valid(os[i])
    ensures ImportsResolved(os) <==> AllAnswered(os)
  {
    hide Valid, Imported, Satisfies, Answers;
    forall i: nat, j: nat | IsImport(os, i, j)
      ensures ResolvedImport(os, i, j) <==> exists k: nat, l: nat :: Answers(os, k, l, os[i].symbols[j])
    {
      OneResolvedIs(os, i, j);
    }
    forall i: nat, j: nat
      ensures Imports(os, i, j) <==> IsImport(os, i, j)
    {
      DefinesIs(os, i, j);
    }
    if AllAnswered(os) {
      forall i: nat, j: nat | IsImport(os, i, j)
        ensures ResolvedImport(os, i, j)
      {
        assert Imports(os, i, j);
      }
    }
  }

  lemma OneResolvedIs(os: seq<Object>, i: nat, j: nat)
    requires (forall i :: 0 <= i < |os| ==> Valid(os[i])) && IsImport(os, i, j)
    ensures ResolvedImport(os, i, j) <==> exists k: nat, l: nat :: Answers(os, k, l, os[i].symbols[j])
  {
    hide Valid, Imported, Satisfies;
    if ResolvedImport(os, i, j) {
      var d :| IsDefinition(os, d) && Satisfies(os[i].symbols[j], d.symbol);
      AnswersIs(os, i, j, d.unit, d.index);
      assert Answers(os, d.unit, d.index, os[i].symbols[j]);
    }
    if k: nat, l: nat :| Answers(os, k, l, os[i].symbols[j]) {
      AnswersIs(os, i, j, k, l);
      assert IsDefinition(os, Definition(os[k].symbols[l], k, l));
    }
  }
}
