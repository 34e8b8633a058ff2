/** Relocation values, the layout of an image and the bytes of materialised sections, in numbers. */
module RelocationNumbers {
  import opened Objects
  import opened ObjectFiles
  import opened ObjectNumbers
  import opened Relocations

  /** The number of bytes at a site that are the value of a relocation. */
  predicate Represents(kind: nat, source: nat, target: nat, addend: int, v: nat) {
    if kind == 1 then v < 4294967296 && (target + addend - (source + 4) - v) % 4294967296 == 0
    else kind == 2 && v == 5368709120 + target + addend
  }

  /** A relative value is refused when it is no signed 32-bit number or when target + addend is no
      signed 64-bit one, an absolute value when it is no 64-bit number. */
  lemma ValueExactly(kind: nat, source: nat, target: nat, addend: int)
    ensures Value(kind, source, target, addend).Some? <==>
      && source + 4 <= 9223372036854775807 && target <= 9223372036854775807
      && if kind == 1 then
           target + addend <= 9223372036854775807 && -2147483648 <= target + addend - (source + 4) <= 2147483647
         else kind == 2 && 0 <= 5368709120 + target + addend < 18446744073709551616
    ensures Value(kind, source, target, addend).Some? ==>
      Represents(kind, source, target, addend, Value(kind, source, target, addend).value)
  {
    var n := target + addend - (source + 4);
    assert n - n % W32 == 4294967296 * (n / W32);
  }

  /** The first multiple of a page from n on. */
  predicate PageFrom(r: nat, n: nat) {
    n <= r < n + 4096 && r % 4096 == 0
  }

  /** Some text and at most 16 MiB in each section; each begins on the next page behind the one before,
      with eight bytes for the anchor before .rdata, and eight for an empty .data. */
  lemma LayoutExactly(text: nat, rdata: nat, data: nat)
    ensures LayoutOf(text, rdata, data).Some? <==> 0 < text <= 16777216 && rdata <= 16777216 && data <= 16777216
    ensures LayoutOf(text, rdata, data).Some? ==>
      var l := LayoutOf(text, rdata, data).value;
      && l.text == 4096 && PageFrom(l.rdata, 4096 + text) && PageFrom(l.data, l.rdata + 8 + rdata)
      && PageFrom(l.reloc, l.data + if data == 0 then 8 else data)
  {
    hide Multiple;
    var r := Pages(4096 + text);
    var d := Pages(r + 8 + rdata);
    MultipleIs(4096 + text, 4096);
    MultipleIs(r + 8 + rdata, 4096);
    MultipleIs(d + if data > 0 then data else 8, 4096);
  }

  /** Where a section's bytes are in memory. */
  function AddressOf(l: Layout, section: nat, offset: nat): nat {
    offset + if section == 1 then 4096 else if section == 2 then l.rdata + 8 else l.data
  }

  /** A valid object is materialised when it is for the first target, has an entry and no imports, its
      sections fit the image, and every relocation has a value. */
  lemma MaterializableExactly(o: Object)
    ensures Materializable(o) <==>
      && Valid(o) && o.target == 1 && o.entry != 0 && (forall s :: s in o.symbols ==> s.section != 0)
      && 0 < |o.sections[0]| <= 16777216 && |o.sections[1]| <= 16777216 && |o.sections[2]| <= 16777216
      && forall k: nat :: k < |o.relocs| ==> HasValue(o, k)
  {
    hide LayoutOf, Value, Valid, Role, Imported;
    if Valid(o) {
      SectionOrImport(o);
      LayoutExactly(|o.sections[0]|, |o.sections[1]|, |o.sections[2]|);
      if Closed(o) && LayoutOf(|o.sections[0]|, |o.sections[1]|, |o.sections[2]|).Some? {
        forall k: nat | k < |o.relocs|
          ensures HasValue(o, k) <==> ValueAt(o, LayoutOf(|o.sections[0]|, |o.sections[1]|, |o.sections[2]|).value, k).Some?
        {
          AddressesFit(o, LayoutOf(|o.sections[0]|, |o.sections[1]|, |o.sections[2]|).value, k);
          RelocSection(o, k);
        }
      }
    }
  }

  lemma SectionOrImport(o: Object)
    requires Valid(o)
    ensures |o.sections| == 3 && forall i :: 0 <= i < |o.symbols| ==> (Imported(o.symbols[i]) <==> o.symbols[i].section == 0)
    ensures (forall s :: s in o.symbols ==> s.section != 0) <==> forall i :: 0 <= i < |o.symbols| ==> !Imported(o.symbols[i])
  {
    hide ValidText, Role;
    forall i | 0 <= i < |o.symbols|
      ensures Imported(o.symbols[i]) <==> o.symbols[i].section == 0
    {
      assert ValidSymbol(o.sections, o.symbols[i]);
    }
    if forall s :: s in o.symbols ==> s.section != 0 {
      forall i | 0 <= i < |o.symbols|
        ensures !Imported(o.symbols[i])
      {
        assert o.symbols[i] in o.symbols;
      }
    }
  }

  lemma RelocSection(o: Object, k: nat)
    requires Valid(o) && k < |o.relocs|
    ensures 1 <= o.relocs[k].section <= 3 && 1 <= o.relocs[k].target <= |o.symbols|
  {
    assert ValidReloc(o.sections, |o.symbols|, o.relocs[k]);
  }

  /** The value of relocation k in the image. */
  predicate HasValue(o: Object, k: nat)
    requires Valid(o) && k < |o.relocs|
  {
    var l := LayoutOf(|o.sections[0]|, |o.sections[1]|, |o.sections[2]|);
    var r := o.relocs[k];
    var s := o.symbols[r.target - 1];
    l.Some? && Value(r.kind, AddressOf(l.value, r.section, r.offset), AddressOf(l.value, s.section, s.offset), r.addend).Some?
  }

  /** Every site of the artifact holds, in four or eight bytes, the value that leads from it to its
      target. */
  lemma SitesHold(a: Artifact, o: Object, k: nat)
    requires Materializable(o) && IsArtifact(a, o) && k < |o.relocs|
    ensures var r := o.relocs[k];
            var s := o.symbols[r.target - 1];
            var l := LayoutOf(|o.sections[0]|, |o.sections[1]|, |o.sections[2]|).value;
            && 1 <= r.section <= 3 && (r.kind == 1 || r.kind == 2)
            && r.offset + (if r.kind == 1 then 4 else 8) <= |a.sections[r.section - 1]|
            && Represents(r.kind, AddressOf(l, r.section, r.offset), AddressOf(l, s.section, s.offset), r.addend,
                          if r.kind == 1 then Le32(a.sections[r.section - 1], r.offset) else Le64(a.sections[r.section - 1], r.offset))
  {
    hide LayoutOf, Value, Represents, ValidSymbol;
    var r := o.relocs[k];
    var s := o.symbols[r.target - 1];
    var l := LayoutOf(|o.sections[0]|, |o.sections[1]|, |o.sections[2]|).value;
    assert ValidReloc(o.sections, |o.symbols|, r);
    assert Patched(a.sections[r.section - 1], o, l, r.section - 1, |o.relocs|);
    assert ValueAt(o, l, k).Some? && Stored(a.sections[r.section - 1], r, ValueAt(o, l, k).value);
    ValueExactly(r.kind, AddressOf(l, r.section, r.offset), AddressOf(l, s.section, s.offset), r.addend);
    LayoutExactly(|o.sections[0]|, |o.sections[1]|, |o.sections[2]|);
    U32Is(a.sections[r.section - 1], r.offset);
    if r.kind == 2 {
      U64Is(a.sections[r.section - 1], r.offset);
    }
  }

  /** Bytes that no site covers are those of the object; the entry is that of its symbol, and the
      absolute sites are listed in order. */
  lemma OtherBytesKept(a: Artifact, o: Object, j: nat, p: nat)
    requires Materializable(o) && IsArtifact(a, o) && j < 3 && p < |o.sections[j]|
    requires forall r :: r in o.relocs && r.section == j + 1 ==> p < r.offset || r.offset + (if r.kind == 1 then 4 else 8) <= p
    ensures |a.sections[j]| == |o.sections[j]| && a.sections[j][p] == o.sections[j][p]
  {
    var l := LayoutOf(|o.sections[0]|, |o.sections[1]|, |o.sections[2]|).value;
    assert Patched(a.sections[j], o, l, j, |o.relocs|);
    forall i | 0 <= i < |o.relocs|
      ensures !Covers(o.relocs[i], j, p)
    {
      assert o.relocs[i] in o.relocs && ValidReloc(o.sections, |o.symbols|, o.relocs[i]);
    }
    assert Untouched(o, j, |o.relocs|, p);
  }
}
