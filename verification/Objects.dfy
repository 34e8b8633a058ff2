/** Relocatable objects and their structural validity. A C string is the sequence of its bytes
    before the terminator. */
module Objects {
  import opened Sorting

  const MAX_FILE: nat := 64 * 1024 * 1024
  const MAX_SYMBOLS: nat := 65536
  const MAX_RELOCS: nat := 1048576
  const REL32: nat := 1
  const DIR64: nat := 2
  const W64: nat := 0x1_0000_0000_0000_0000

  type Byte = n: nat | n < 256
  type Int64 = n: int | -0x8000_0000_0000_0000 <= n < 0x8000_0000_0000_0000
  type Text = seq<Byte>

  datatype Symbol = Symbol(name: Text, contract: Text, section: nat, flags: nat, offset: nat, size: nat)
  datatype Reloc = Reloc(section: nat, kind: nat, target: nat, offset: nat, addend: Int64)
  datatype Object = Object(target: nat, entry: nat, sections: seq<seq<Byte>>, symbols: seq<Symbol>, relocs: seq<Reloc>)

  // ----- Flags -----

  predicate Exported(s: Symbol) { s.flags % 2 == 1 }
  predicate Imported(s: Symbol) { s.flags / 8 % 2 == 1 }
  function Role(s: Symbol): nat { s.flags / 2 % 4 }
  const FUNCTION: nat := 1
  const VARIABLE: nat := 2

  // ----- The order of names -----

  /** strcmp(a, b) < 0 */
  predicate Before(a: Text, b: Text) {
    b != [] && (a == [] || a[0] < b[0] || (a[0] == b[0] && Before(a[1..], b[1..])))
  }

  lemma {:induction false} BeforeTotal(a: Text, b: Text)
    ensures Before(a, b) || Before(b, a) || a == b
    ensures !(Before(a, b) && Before(b, a)) && !Before(a, a)
    decreases a
  {
    if a != [] {
      BeforeTotal(a[1..], a[1..]);
      if b != [] {
        BeforeTotal(a[1..], b[1..]);
        assert a == [a[0]] + a[1..] && b == [b[0]] + b[1..];
      }
    }
  }

  lemma {:induction false} BeforeTrans(a: Text, b: Text, c: Text)
    requires Before(a, b) && Before(b, c)
    ensures Before(a, c)
    decreases a
  {
    if a != [] && a[0] == b[0] && b[0] == c[0] {
      BeforeTrans(a[1..], b[1..], c[1..]);
    }
  }

  predicate NameBefore(a: Symbol, b: Symbol) {
    Before(a.name, b.name)
  }

  predicate NameOrder(a: Symbol, b: Symbol) {
    Before(a.name, b.name) || a.name == b.name
  }

  lemma NameOrderTrans(a: Symbol, b: Symbol, c: Symbol)
    ensures NameBefore(a, b) && NameBefore(b, c) ==> NameBefore(a, c)
    ensures NameOrder(a, b) && NameOrder(b, c) ==> NameOrder(a, c)
  {
    if Before(a.name, b.name) && Before(b.name, c.name) {
      BeforeTrans(a.name, b.name, c.name);
    }
  }

  lemma NameOrderTotal(a: Symbol, b: Symbol)
    ensures !NameBefore(a, a) && (NameOrder(a, b) || NameOrder(b, a))
  {
    BeforeTotal(a.name, b.name);
    BeforeTotal(a.name, a.name);
  }

  lemma NamesAreOrdered()
    ensures Strict(NameBefore) && Preorder(NameOrder)
  {
    forall a, b, c
      ensures NameBefore(a, b) && NameBefore(b, c) ==> NameBefore(a, c)
    {
      NameOrderTrans(a, b, c);
    }
    forall a, b, c
      ensures NameOrder(a, b) && NameOrder(b, c) ==> NameOrder(a, c)
    {
      NameOrderTrans(a, b, c);
    }
    forall a
      ensures !NameBefore(a, a)
    {
      NameOrderTotal(a, a);
    }
    forall a, b
      ensures NameOrder(a, b) || NameOrder(b, a)
    {
      NameOrderTotal(a, b);
    }
  }

  // ----- Validity -----

  predicate ValidText(s: Text, maximum: nat) {
    0 < |s| <= maximum && forall i :: 0 <= i < |s| ==> 0 < s[i] < 128
  }

  predicate Spans(at: nat, size: nat, bound: nat) {
    at + size <= bound
  }

  function SizeOf(sections: seq<seq<Byte>>, section: nat): nat {
    if 1 <= section <= |sections| then |sections[section - 1]| else 0
  }

  predicate ValidSymbol(sections: seq<seq<Byte>>, s: Symbol) {
    && ValidText(s.name, 512) && ValidText(s.contract, 65536)
    && s.flags < 16 && (Role(s) == FUNCTION || Role(s) == VARIABLE) && s.section <= 3
    && (if Imported(s) then s.section == 0 && s.offset == 0 && s.size == 0 && !Exported(s)
        else s.section > 0 && Spans(s.offset, s.size, SizeOf(sections, s.section)) &&
             (Role(s) == FUNCTION ==> s.section == 1 && s.size > 0))
  }

  function Width(kind: nat): nat {
    if kind == REL32 then 4 else if kind == DIR64 then 8 else 0
  }

  predicate ValidReloc(sections: seq<seq<Byte>>, symbols: nat, r: Reloc) {
    && Width(r.kind) > 0 && 1 <= r.section <= 3 && 1 <= r.target <= symbols
    && Spans(r.offset, Width(r.kind), SizeOf(sections, r.section))
  }

  /** r patches bytes behind those that p patches. */
  predicate RelocBefore(p: Reloc, r: Reloc) {
    p.section < r.section || (p.section == r.section && p.offset + (if p.kind == REL32 then 4 else 8) <= r.offset)
  }

  predicate ValidEntry(o: Object) {
    o.entry > 0 ==> o.entry <= |o.symbols| && o.symbols[o.entry - 1].section == 1 && Role(o.symbols[o.entry - 1]) % 2 == 1
  }

  predicate ValidSections(o: Object) {
    |o.sections| == 3 && forall k :: 0 <= k < 3 ==> |o.sections[k]| <= MAX_FILE
  }

  predicate Valid(o: Object) {
    && 1 <= o.target <= 2 && |o.symbols| <= MAX_SYMBOLS && |o.relocs| <= MAX_RELOCS
    && ValidSections(o)
    && (forall j :: 0 <= j < |o.symbols| ==> ValidSymbol(o.sections, o.symbols[j]))
    && Ordered(o.symbols, NameBefore)
    && ValidEntry(o)
    && (forall j :: 0 <= j < |o.relocs| ==> ValidReloc(o.sections, |o.symbols|, o.relocs[j]))
    && Ordered(o.relocs, RelocBefore)
  }

  lemma RelocsAreOrdered()
    ensures Strict(RelocBefore)
  {
  }

  /** Neighbours in order are enough. */
  lemma {:induction false} NeighbourLast(s: seq<Symbol>, j: nat)
    requires j < |s| && Ordered(s[..j], NameBefore) && (j > 0 ==> NameBefore(s[j - 1], s[j]))
    ensures Ordered(s[..j + 1], NameBefore)
  {
    NamesAreOrdered();
    forall i | 0 <= i < j
      ensures NameBefore(s[i], s[j])
    {
      if i < j - 1 {
        assert NameBefore(s[..j][i], s[..j][j - 1]);
      }
    }
  }

  lemma RelocNeighbourLast(s: seq<Reloc>, j: nat)
    requires j < |s| && Ordered(s[..j], RelocBefore) && (j > 0 ==> RelocBefore(s[j - 1], s[j]))
    ensures Ordered(s[..j + 1], RelocBefore)
  {
    RelocsAreOrdered();
    forall i | 0 <= i < j
      ensures RelocBefore(s[i], s[j])
    {
      if i < j - 1 {
        assert RelocBefore(s[..j][i], s[..j][j - 1]);
      }
    }
  }

  method CheckSymbols(o: Object) returns (ok: bool)
    requires ValidSections(o)
    ensures ok == ((forall j :: 0 <= j < |o.symbols| ==> ValidSymbol(o.sections, o.symbols[j])) && Ordered(o.symbols, NameBefore))
  {
    var j := 0;
    while j < |o.symbols|
      invariant 0 <= j <= |o.symbols|
      invariant forall i :: 0 <= i < j ==> ValidSymbol(o.sections, o.symbols[i])
      invariant Ordered(o.symbols[..j], NameBefore)
    {
      if j > 0 && !NameBefore(o.symbols[j - 1], o.symbols[j]) {
        return false;
      }
      if !ValidSymbol(o.sections, o.symbols[j]) {
        return false;
      }
      NeighbourLast(o.symbols, j);
      j := j + 1;
    }
    assert o.symbols[..j] == o.symbols;
    ok := true;
  }

  method CheckRelocs(o: Object) returns (ok: bool)
    requires ValidSections(o)
    ensures ok == ((forall j :: 0 <= j < |o.relocs| ==> ValidReloc(o.sections, |o.symbols|, o.relocs[j])) && Ordered(o.relocs, RelocBefore))
  {
    var j := 0;
    while j < |o.relocs|
      invariant 0 <= j <= |o.relocs|
      invariant forall i :: 0 <= i < j ==> ValidReloc(o.sections, |o.symbols|, o.relocs[i])
      invariant Ordered(o.relocs[..j], RelocBefore)
    {
      if !ValidReloc(o.sections, |o.symbols|, o.relocs[j]) {
        return false;
      }
      if j > 0 && !RelocBefore(o.relocs[j - 1], o.relocs[j]) {
        return false;
      }
      RelocNeighbourLast(o.relocs, j);
      j := j + 1;
    }
    assert o.relocs[..j] == o.relocs;
    ok := true;
  }

  /** The checks in their order. What it accepts is exactly what is valid, with all names in order
      and all patched ranges apart, not only neighbours. */
  method Validate(o: Object) returns (ok: bool)
    ensures ok == Valid(o)
  {
    if !(1 <= o.target <= 2) || |o.symbols| > MAX_SYMBOLS || |o.relocs| > MAX_RELOCS || !ValidSections(o) {
      return false;
    }
    ok := CheckSymbols(o);
    if !ok || !ValidEntry(o) {
      return false;
    }
    ok := CheckRelocs(o);
  }
}
