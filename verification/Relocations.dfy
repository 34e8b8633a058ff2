/** Relocation arithmetic, image layout, and the materialisation of a closed object. */
module Relocations {
  import opened Objects
  import opened ObjectFiles

  const IMAGE_BASE: nat := 0x1_4000_0000
  const INT64_MAX: int := 0x7FFF_FFFF_FFFF_FFFF
  const INT64_MIN: int := -0x8000_0000_0000_0000
  const INT32_MAX: int := 0x7FFF_FFFF
  const INT32_MIN: int := -0x8000_0000
  const MAX_SECTION: nat := 16 * 1024 * 1024

  // ----- Values -----

  /** The relocation value in 64-bit steps, each guarded before it is taken. */
  method RelocationValue(kind: nat, source: nat, target: nat, addend: Int64) returns (r: Option<nat>)
    requires source < W64 && target < W64
    ensures r == Value(kind, source, target, addend)
  {
    if source > INT64_MAX - 4 || target > INT64_MAX {
      return None;
    }
    if kind == REL32 {
      var t: int, p: int := target, source + 4;
      if (addend > 0 && t > INT64_MAX - addend) || (addend < 0 && t < INT64_MIN - addend) {
        return None;
      }
      t := t + addend;
      if t < INT64_MIN + p {
        return None;
      }
      t := t - p;
      if t < INT32_MIN || t > INT32_MAX {
        return None;
      }
      return Some(t % W32);
    }
    if kind == DIR64 {
      if target > W64 - 1 - IMAGE_BASE {
        return None;
      }
      var t := IMAGE_BASE + target;
      if addend < 0 {
        var magnitude := -(addend + 1) + 1;
        if magnitude > t {
          return None;
        }
        t := t - magnitude;
      } else {
        if addend > W64 - 1 - t {
          return None;
        }
        t := t + addend;
      }
      return Some(t);
    }
    r := None;
  }

  /** Relative values are target + addend - (source + 4) in 32 bits, absolute ones base + target +
      addend in 64. Addresses are positive as signed words, and so must target + addend be. */
  function Value(kind: nat, source: nat, target: nat, addend: int): Option<nat> {
    var relative, absolute := target + addend - (source + 4), IMAGE_BASE + target + addend;
    if source + 4 > INT64_MAX || target > INT64_MAX then None
    else if kind == REL32 then
      if target + addend <= INT64_MAX && INT32_MIN <= relative <= INT32_MAX then Some(relative % W32) else None
    else if kind == DIR64 then
      if 0 <= absolute < W64 then Some(absolute) else None
    else None
  }

  /** The displacement an instruction finds in a 32-bit field. */
  function Displacement(v: nat): int {
    if v <= INT32_MAX then v else v - W32
  }

  /** Behind a relative site the processor computes target + addend; an absolute one holds it. */
  lemma ValueReaches(kind: nat, source: nat, target: nat, addend: int)
    requires Value(kind, source, target, addend).Some?
    ensures var v := Value(kind, source, target, addend).value;
            && (kind == REL32 ==> v < W32 && source + 4 + Displacement(v) == target + addend)
            && (kind == DIR64 ==> v == IMAGE_BASE + target + addend < W64)
  {
    if kind == REL32 {
      var relative := target + addend - (source + 4);
      if relative < 0 {
        assert (relative + W32) % W32 == relative % W32;
      }
    }
  }

  /** A displacement that fits can still be refused, because target + addend is formed first. */
  lemma FittingValueRefused()
    ensures Value(REL32, INT64_MAX - 4, INT64_MAX, 10) == None
    ensures INT64_MAX + 10 - (INT64_MAX - 4 + 4) == 10
  {
  }

  // ----- Layout -----

  function Pages(n: nat): (r: nat)
    ensures n <= r < n + 4096
  {
    Multiple(n, 4096)
  }

  datatype Layout = Layout(text: nat, rdata: nat, data: nat, reloc: nat)

  function LayoutOf(text: nat, rdata: nat, data: nat): Option<Layout> {
    if text == 0 || text > MAX_SECTION || rdata > MAX_SECTION || data > MAX_SECTION then None
    else
      var r := Pages(4096 + text);
      var d := Pages(r + 8 + rdata);
      Some(Layout(4096, r, d, Pages(d + if data > 0 then data else 8)))
  }

  function Rva(l: Layout, section: nat): nat
    requires 1 <= section <= 3
  {
    if section == 1 then l.text else if section == 2 then l.rdata + 8 else l.data
  }

  /** Sections and their headers do not overlap, and each starts on a page of its own. */
  lemma SectionsApart(text: nat, rdata: nat, data: nat)
    requires LayoutOf(text, rdata, data).Some?
    ensures var l := LayoutOf(text, rdata, data).value;
            && l.text + text <= l.rdata && l.rdata + 8 + rdata <= l.data && l.data + data <= l.reloc < W32
            && l.rdata % 4096 == 0 && l.data % 4096 == 0 && l.reloc % 4096 == 0
  {
    hide Multiple;
    var r := Pages(4096 + text);
    var d := Pages(r + 8 + rdata);
    MultipleIs(4096 + text, 4096);
    MultipleIs(r + 8 + rdata, 4096);
    MultipleIs(d + if data > 0 then data else 8, 4096);
  }

  // ----- Materialisation -----

  datatype Artifact = Artifact(sections: seq<Bytes>, entry: nat, bases: seq<(nat, nat)>)

  function ValueAt(o: Object, l: Layout, k: nat): Option<nat>
    requires Valid(o) && k < |o.relocs|
  {
    var r := o.relocs[k];
    var s := o.symbols[r.target - 1];
    if 1 <= s.section <= 3 then Value(r.kind, Rva(l, r.section) + r.offset, Rva(l, s.section) + s.offset, r.addend) else None
  }

  /** The sites of the absolute relocations among the first k, in order. */
  function Absolutes(rs: seq<Reloc>, k: nat): seq<(nat, nat)>
    requires k <= |rs|
  {
    if k == 0 then []
    else Absolutes(rs, k - 1) + if rs[k - 1].kind == DIR64 then [(rs[k - 1].section, rs[k - 1].offset)] else []
  }

  predicate Stored(b: Bytes, r: Reloc, v: nat) {
    if r.kind == REL32 then U32(b, r.offset) == v else U64(b, r.offset) == v
  }

  predicate Covers(r: Reloc, j: nat, p: nat) {
    r.section == j + 1 && r.offset <= p < r.offset + Width(r.kind)
  }

  predicate Untouched(o: Object, j: nat, k: nat, p: nat)
    requires k <= |o.relocs|
  {
    forall i :: 0 <= i < k ==> !Covers(o.relocs[i], j, p)
  }

  /** Section j with the first k relocations applied and nothing else changed. */
  ghost predicate Patched(b: Bytes, o: Object, l: Layout, j: nat, k: nat)
    requires Valid(o) && j < 3 && k <= |o.relocs|
  {
    && |b| == |o.sections[j]|
    && (forall i :: 0 <= i < k && o.relocs[i].section == j + 1 ==>
          ValueAt(o, l, i).Some? && Stored(b, o.relocs[i], ValueAt(o, l, i).value))
    && (forall p :: 0 <= p < |b| && Untouched(o, j, k, p) ==> b[p] == o.sections[j][p])
  }

  predicate Closed(o: Object) {
    o.target == 1 && o.entry > 0 && forall i :: 0 <= i < |o.symbols| ==> !Imported(o.symbols[i])
  }

  ghost predicate Materializable(o: Object) {
    && Valid(o) && Closed(o)
    && LayoutOf(|o.sections[0]|, |o.sections[1]|, |o.sections[2]|).Some?
    && forall k: nat :: k < |o.relocs| ==>
         ValueAt(o, LayoutOf(|o.sections[0]|, |o.sections[1]|, |o.sections[2]|).value, k).Some?
  }

  ghost predicate IsArtifact(a: Artifact, o: Object)
    requires Materializable(o)
  {
    var l := LayoutOf(|o.sections[0]|, |o.sections[1]|, |o.sections[2]|).value;
    && |a.sections| == 3 && (forall j :: 0 <= j < 3 ==> Patched(a.sections[j], o, l, j, |o.relocs|))
    && a.entry == o.symbols[o.entry - 1].offset && a.bases == Absolutes(o.relocs, |o.relocs|)
  }

  lemma ValueBound(kind: nat, source: nat, target: nat, addend: int)
    requires Value(kind, source, target, addend).Some?
    ensures Value(kind, source, target, addend).value < if kind == REL32 then W32 else W64
  {
  }

  method Store(b: array<Byte>, r: Reloc, v: nat)
    requires Width(r.kind) > 0 && r.offset + Width(r.kind) <= b.Length && v < if r.kind == REL32 then W32 else W64
    modifies b
    ensures Stored(b[..], r, v) && Apart(b[..], old(b[..]), r.offset, r.offset + Width(r.kind))
  {
    hide U32;
    if r.kind == REL32 {
      Put32(b, r.offset, v);
    } else {
      Put32(b, r.offset, Low(v));
      ghost var low := b[..];
      Put32(b, r.offset + 4, High(v));
      U32Kept(b[..], low, r.offset + 4, r.offset + 8, r.offset);
      Halves(b[..], r.offset, v);
    }
  }

  lemma StoredKept(a: Bytes, b: Bytes, from: nat, to: nat, r: Reloc, v: nat)
    requires Apart(a, b, from, to) && Stored(b, r, v) && Clear(from, to, r.offset, r.offset + Width(r.kind)) && Width(r.kind) > 0
    ensures Stored(a, r, v)
  {
    hide U32, U64;
    if r.kind == REL32 {
      U32Kept(a, b, from, to, r.offset);
    } else {
      U64Kept(a, b, from, to, r.offset);
    }
  }

  /** Sites are in order and apart, so a later one leaves the earlier ones alone. */
  lemma PatchStep(a: Bytes, b: Bytes, o: Object, l: Layout, j: nat, k: nat)
    requires Valid(o) && j < 3 && k < |o.relocs| && Patched(b, o, l, j, k) && o.relocs[k].section == j + 1
    requires ValueAt(o, l, k).Some? && Stored(a, o.relocs[k], ValueAt(o, l, k).value)
    requires Apart(a, b, o.relocs[k].offset, o.relocs[k].offset + Width(o.relocs[k].kind))
    ensures Patched(a, o, l, j, k + 1)
  {
    hide ValueAt, Stored, ValidSymbol, ValidText;
    var r := o.relocs[k];
    forall i | 0 <= i < k && o.relocs[i].section == j + 1
      ensures ValueAt(o, l, i).Some? && Stored(a, o.relocs[i], ValueAt(o, l, i).value)
    {
      assert RelocBefore(o.relocs[i], r) && ValidReloc(o.sections, |o.symbols|, o.relocs[i]);
      StoredKept(a, b, r.offset, r.offset + Width(r.kind), o.relocs[i], ValueAt(o, l, i).value);
    }
    forall p | 0 <= p < |a| && Untouched(o, j, k + 1, p)
      ensures a[p] == o.sections[j][p]
    {
      assert !Covers(o.relocs[k], j, p);
      assert Untouched(o, j, k, p);
    }
  }

  lemma PatchElsewhere(b: Bytes, o: Object, l: Layout, j: nat, k: nat)
    requires Valid(o) && j < 3 && k < |o.relocs| && Patched(b, o, l, j, k) && o.relocs[k].section != j + 1
    ensures Patched(b, o, l, j, k + 1)
  {
    hide ValueAt, Stored, ValidSymbol, ValidText;
    forall p | 0 <= p < |b| && Untouched(o, j, k + 1, p)
      ensures b[p] == o.sections[j][p]
    {
      assert Untouched(o, j, k, p);
    }
  }

  method Clone(b: Bytes) returns (a: array<Byte>)
    ensures fresh(a) && a[..] == b
  {
    a := new Byte[|b|](i requires 0 <= i < |b| => b[i]);
  }

  method Patch(text: array<Byte>, rdata: array<Byte>, data: array<Byte>, o: Object, l: Layout, k: nat) returns (ok: bool)
    requires Valid(o) && Closed(o) && k < |o.relocs| && text != rdata && text != data && rdata != data
    requires LayoutOf(|o.sections[0]|, |o.sections[1]|, |o.sections[2]|) == Some(l)
    requires Patched(text[..], o, l, 0, k) && Patched(rdata[..], o, l, 1, k) && Patched(data[..], o, l, 2, k)
    modifies text, rdata, data
    ensures ok == ValueAt(o, l, k).Some?
    ensures ok ==> Patched(text[..], o, l, 0, k + 1) && Patched(rdata[..], o, l, 1, k + 1) && Patched(data[..], o, l, 2, k + 1)
  {
    hide Value, Stored, Patched, Width, LayoutOf, ValidSymbol;
    var r := o.relocs[k];
    assert ValidReloc(o.sections, |o.symbols|, r);
    var s := o.symbols[r.target - 1];
    AddressesFit(o, l, k);
    var v := RelocationValue(r.kind, Rva(l, r.section) + r.offset, Rva(l, s.section) + s.offset, r.addend);
    if v.None? {
      return false;
    }
    ValueBound(r.kind, Rva(l, r.section) + r.offset, Rva(l, s.section) + s.offset, r.addend);
    var section := if r.section == 1 then text else if r.section == 2 then rdata else data;
    ghost var was := section[..];
    PatchedSize(section[..], o, l, r.section - 1, k);
    Store(section, r, v.value);
    PatchStep(section[..], was, o, l, r.section - 1, k);
    if r.section != 1 {
      PatchElsewhere(text[..], o, l, 0, k);
    }
    if r.section != 2 {
      PatchElsewhere(rdata[..], o, l, 1, k);
    }
    if r.section != 3 {
      PatchElsewhere(data[..], o, l, 2, k);
    }
    ok := true;
  }

  lemma PatchedSize(b: Bytes, o: Object, l: Layout, j: nat, k: nat)
    requires Valid(o) && j < 3 && k < |o.relocs| && Patched(b, o, l, j, k) && o.relocs[k].section == j + 1
    ensures Width(o.relocs[k].kind) > 0 && o.relocs[k].offset + Width(o.relocs[k].kind) <= |b|
  {
    assert ValidReloc(o.sections, |o.symbols|, o.relocs[k]);
  }

  lemma AddressesFit(o: Object, l: Layout, k: nat)
    requires Valid(o) && Closed(o) && k < |o.relocs|
    requires LayoutOf(|o.sections[0]|, |o.sections[1]|, |o.sections[2]|) == Some(l)
    ensures var r := o.relocs[k]; var s := o.symbols[r.target - 1];
            && 1 <= s.section <= 3 && Rva(l, r.section) + r.offset < W64 && Rva(l, s.section) + s.offset < W64
  {
    hide Pages, ValidText;
    var r := o.relocs[k];
    assert ValidReloc(o.sections, |o.symbols|, r);
    assert ValidSymbol(o.sections, o.symbols[r.target - 1]);
    SectionsApart(|o.sections[0]|, |o.sections[1]|, |o.sections[2]|);
  }

  /** Materialisation succeeds exactly on a valid closed UEFI object with an entry whose sections
      fit the profile and whose values all fit. The sections come out with every site patched to its
      value and no other byte changed, with the absolute sites listed once each in order. */
  method Materialize(o: Object) returns (r: Option<Artifact>)
    ensures r.Some? <==> Materializable(o)
    ensures r.Some? ==> IsArtifact(r.value, o)
  {
    hide Patched, ValueAt, LayoutOf, Imported, Stored, Untouched, Role, Before, ValidSymbol, NameBefore, ValidReloc,
         RelocBefore;
    var valid := Validate(o);
    if !valid || o.target != 1 || o.entry == 0 {
      return None;
    }
    var i := 0;
    while i < |o.symbols|
      invariant 0 <= i <= |o.symbols| && forall k :: 0 <= k < i ==> !Imported(o.symbols[k])
    {
      if Imported(o.symbols[i]) {
        return None;
      }
      i := i + 1;
    }
    var layout := LayoutOf(|o.sections[0]|, |o.sections[1]|, |o.sections[2]|);
    if layout.None? {
      return None;
    }
    var l := layout.value;
    var text := Clone(o.sections[0]);
    var rdata := Clone(o.sections[1]);
    var data := Clone(o.sections[2]);
    NothingPatched(o, l);
    var bases, k := [], 0;
    while k < |o.relocs|
      invariant 0 <= k <= |o.relocs| && bases == Absolutes(o.relocs, k)
      invariant forall m: nat :: m < k ==> ValueAt(o, l, m).Some?
      invariant Patched(text[..], o, l, 0, k) && Patched(rdata[..], o, l, 1, k) && Patched(data[..], o, l, 2, k)
    {
      var ok := Patch(text, rdata, data, o, l, k);
      if !ok {
        return None;
      }
      if o.relocs[k].kind == DIR64 {
        bases := bases + [(o.relocs[k].section, o.relocs[k].offset)];
      }
      k := k + 1;
    }
    r := Some(Artifact([text[..], rdata[..], data[..]], o.symbols[o.entry - 1].offset, bases));
  }

  lemma NothingPatched(o: Object, l: Layout)
    requires Valid(o)
    ensures forall j :: 0 <= j < 3 ==> Patched(o.sections[j], o, l, j, 0)
  {
  }

  // ----- Against direct generation -----

  /** Where direct generation lays out the sections: text at zero, pages without image headers. */
  function DirectBase(text: nat, rdata: nat, section: nat): nat {
    if section == 1 then 0
    else if section == 2 then Pages(text) + 8
    else Pages(Pages(text) + 8 + rdata)
  }

  /** What the generator patches into its text, for a function or a datum. */
  function DirectValue(text: nat, rdata: nat, site: nat, section: nat, offset: nat, addend: int): Option<nat> {
    var displacement := DirectBase(text, rdata, section) + offset + addend - (site + 4);
    if INT32_MIN <= displacement <= INT32_MAX then Some(displacement % W32) else None
  }

  lemma PagesShift(n: nat)
    ensures Pages(4096 + n) == 4096 + Pages(n)
  {
  }

  /** Both layouts give a text site the same displacement, and refuse the same ones. */
  lemma SameDisplacement(text: nat, rdata: nat, data: nat, site: nat, section: nat, offset: nat, addend: Int64)
    requires LayoutOf(text, rdata, data).Some? && 1 <= section <= 3
    requires site <= MAX_SECTION && offset <= MAX_SECTION
    ensures var l := LayoutOf(text, rdata, data).value;
            Value(REL32, Rva(l, 1) + site, Rva(l, section) + offset, addend) ==
            DirectValue(text, rdata, site, section, offset, addend)
  {
    hide Pages;
    PagesShift(text);
    PagesShift(Pages(text) + 8 + rdata);
    SectionsApart(text, rdata, data);
  }

  lemma SymbolInside(o: Object, k: nat)
    requires Valid(o) && Closed(o) && k < |o.relocs| && o.relocs[k].section == 1
    requires LayoutOf(|o.sections[0]|, |o.sections[1]|, |o.sections[2]|).Some?
    ensures var r := o.relocs[k]; var s := o.symbols[r.target - 1];
            1 <= s.section <= 3 && s.offset <= MAX_SECTION && r.offset <= MAX_SECTION
  {
    hide LayoutOf, ValidText;
    assert ValidReloc(o.sections, |o.symbols|, o.relocs[k]);
    assert ValidSymbol(o.sections, o.symbols[o.relocs[k].target - 1]);
    SectionLimits(|o.sections[0]|, |o.sections[1]|, |o.sections[2]|);
  }

  lemma SectionLimits(text: nat, rdata: nat, data: nat)
    requires LayoutOf(text, rdata, data).Some?
    ensures text <= MAX_SECTION && rdata <= MAX_SECTION && data <= MAX_SECTION
  {
  }

  /** In the artifact of an object every relative site of the text holds, in its four bytes, what
      the generator would have put there for the same symbol. */
  lemma MaterializedIsDirect(a: Artifact, o: Object, k: nat)
    requires Materializable(o) && IsArtifact(a, o) && k < |o.relocs| && o.relocs[k].section == 1 && o.relocs[k].kind == REL32
    ensures var r := o.relocs[k]; var s := o.symbols[r.target - 1];
            && r.offset + 4 <= |a.sections[0]|
            && DirectValue(|o.sections[0]|, |o.sections[1]|, r.offset, s.section, s.offset, r.addend) ==
               Some(U32(a.sections[0], r.offset))
  {
    hide LayoutOf, U32, Value, DirectValue;
    var r := o.relocs[k];
    var s := o.symbols[r.target - 1];
    var l := LayoutOf(|o.sections[0]|, |o.sections[1]|, |o.sections[2]|).value;
    SymbolInside(o, k);
    assert ValidReloc(o.sections, |o.symbols|, r);
    assert Patched(a.sections[0], o, l, 0, |o.relocs|);
    assert Stored(a.sections[0], r, ValueAt(o, l, k).value);
    SameDisplacement(|o.sections[0]|, |o.sections[1]|, |o.sections[2]|, r.offset, s.section, s.offset, r.addend);
  }
}
