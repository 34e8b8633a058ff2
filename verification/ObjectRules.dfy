/** The rules for objects, written out: what the validator accepts, in numbers. */
module ObjectRules {
  import opened Sorting
  import opened Objects

  predicate Ascii(s: Text, most: nat) {
    1 <= |s| <= most && forall c :: c in s ==> 1 <= c <= 127
  }

  /** Flags 10 and 12 are an imported function and variable; 2 and 4 are defined here, 3 and 5 exported. */
  predicate SymbolRule(lengths: seq<nat>, s: Symbol)
    requires |lengths| == 3
  {
    && Ascii(s.name, 512) && Ascii(s.contract, 65536)
    && if s.flags == 10 || s.flags == 12 then s.section == s.offset == s.size == 0
       else if s.flags == 2 || s.flags == 3 then s.section == 1 && s.size > 0 && s.offset + s.size <= lengths[0]
       else (s.flags == 4 || s.flags == 5) && 1 <= s.section <= 3 && s.offset + s.size <= lengths[s.section - 1]
  }

  /** The bytes that a relocation patches: four for a relative one, of kind 1, and eight for an
      absolute one, of kind 2. */
  function Patches(r: Reloc): nat {
    if r.kind == 1 then 4 else 8
  }

  predicate RelocRule(lengths: seq<nat>, symbols: nat, r: Reloc)
    requires |lengths| == 3
  {
    && (r.kind == 1 || r.kind == 2) && 1 <= r.target <= symbols
    && 1 <= r.section <= 3 && r.offset + Patches(r) <= lengths[r.section - 1]
  }

  /** a comes first at the first byte in which they differ, or is a proper beginning of b. */
  ghost predicate Precedes(a: Text, b: Text) {
    exists k: nat :: k <= |a| && k < |b| && a[..k] == b[..k] && (k == |a| || a[k] < b[k])
  }

  predicate Behind(p: Reloc, r: Reloc) {
    p.section < r.section || (p.section == r.section && p.offset + Patches(p) <= r.offset)
  }

  ghost predicate Rules(o: Object) {
    && (o.target == 1 || o.target == 2) && |o.symbols| <= 65536 && |o.relocs| <= 1048576
    && |o.sections| == 3 && (forall k :: 0 <= k < 3 ==> |o.sections[k]| <= 67108864)
    && var lengths := [|o.sections[0]|, |o.sections[1]|, |o.sections[2]|];
       && (forall j :: 0 <= j < |o.symbols| ==> SymbolRule(lengths, o.symbols[j]))
       && (forall i, j :: 0 <= i < j < |o.symbols| ==> Precedes(o.symbols[i].name, o.symbols[j].name))
       && (forall j :: 0 <= j < |o.relocs| ==> RelocRule(lengths, |o.symbols|, o.relocs[j]))
       && (forall i, j :: 0 <= i < j < |o.relocs| ==> Behind(o.relocs[i], o.relocs[j]))
       && (o.entry == 0 || (o.entry <= |o.symbols| && (o.symbols[o.entry - 1].flags == 2 || o.symbols[o.entry - 1].flags == 3)))
  }

  lemma SymbolIs(o: Object, s: Symbol)
    requires |o.sections| == 3
    ensures ValidSymbol(o.sections, s) <==> SymbolRule([|o.sections[0]|, |o.sections[1]|, |o.sections[2]|], s)
  {
    hide Exported, Imported, Role, ValidText;
    FlagsAre(s);
    TextIs(s.name, 512);
    TextIs(s.contract, 65536);
  }

  lemma FlagsAre(s: Symbol)
    ensures s.flags < 16 && (Role(s) == FUNCTION || Role(s) == VARIABLE) && !(Imported(s) && Exported(s)) <==> s.flags in {2, 3, 4, 5, 10, 12}
    ensures s.flags in {2, 3, 4, 5, 10, 12} ==>
              && (Role(s) == FUNCTION <==> s.flags in {2, 3, 10}) && (Imported(s) <==> s.flags in {10, 12})
  {
    if s.flags < 16 {
      assert s.flags in {0, 1, 2, 3, 4, 5, 6, 7, 8, 9, 10, 11, 12, 13, 14, 15};
    }
  }

  lemma TextIs(s: Text, most: nat)
    ensures ValidText(s, most) <==> Ascii(s, most)
  {
    if ValidText(s, most) {
      forall c | c in s
        ensures 1 <= c <= 127
      {
        var i :| 0 <= i < |s| && s[i] == c;
      }
    }
    assert forall i :: 0 <= i < |s| ==> s[i] in s;
  }

  lemma SameHead(a: Text, b: Text, k: nat)
    ensures 0 < k <= |a| && k <= |b| && a[..k] == b[..k] ==> a[0] == b[0]
  {
    if 0 < k <= |a| && k <= |b| && a[..k] == b[..k] {
      assert a[0] == a[..k][0] && b[0] == b[..k][0];
    }
  }

  lemma {:induction false} BeforeIs(a: Text, b: Text)
    ensures Before(a, b) <==> Precedes(a, b)
    decreases a
  {
    if a == [] || b == [] || a[0] != b[0] {
      if Before(a, b) {
        assert a[..0] == b[..0];
      }
      if Precedes(a, b) {
        var k: nat :| k <= |a| && k < |b| && a[..k] == b[..k] && (k == |a| || a[k] < b[k]);
        SameHead(a, b, k);
      }
    } else {
      BeforeIs(a[1..], b[1..]);
      if Precedes(a[1..], b[1..]) {
        var k: nat :| k <= |a[1..]| && k < |b[1..]| && a[1..][..k] == b[1..][..k] && (k == |a[1..]| || a[1..][k] < b[1..][k]);
        assert a[..k + 1] == [a[0]] + a[1..][..k] && b[..k + 1] == [b[0]] + b[1..][..k];
        assert Precedes(a, b);
      }
      if Precedes(a, b) {
        var k: nat :| k <= |a| && k < |b| && a[..k] == b[..k] && (k == |a| || a[k] < b[k]);
        assert k > 0;
        assert a[1..][..k - 1] == a[..k][1..] && b[1..][..k - 1] == b[..k][1..];
        assert Precedes(a[1..], b[1..]);
      }
    }
  }

  lemma EntryIs(o: Object)
    requires |o.sections| == 3
    requires forall j :: 0 <= j < |o.symbols| ==> SymbolRule([|o.sections[0]|, |o.sections[1]|, |o.sections[2]|], o.symbols[j])
    ensures ValidEntry(o) <==>
              o.entry == 0 || (o.entry <= |o.symbols| && (o.symbols[o.entry - 1].flags == 2 || o.symbols[o.entry - 1].flags == 3))
  {
    if 0 < o.entry <= |o.symbols| {
      assert SymbolRule([|o.sections[0]|, |o.sections[1]|, |o.sections[2]|], o.symbols[o.entry - 1]);
    }
  }

  /** What the validator accepts is what keeps the rules. */
  lemma ValidExactly(o: Object)
    ensures Valid(o) <==> Rules(o)
  {
    hide ValidSymbol, SymbolRule, Before, Precedes, ValidEntry;
    if |o.sections| == 3 {
      forall j | 0 <= j < |o.symbols|
        ensures ValidSymbol(o.sections, o.symbols[j]) <==> SymbolRule([|o.sections[0]|, |o.sections[1]|, |o.sections[2]|], o.symbols[j])
      {
        SymbolIs(o, o.symbols[j]);
      }
      forall i, j | 0 <= i < j < |o.symbols|
        ensures NameBefore(o.symbols[i], o.symbols[j]) <==> Precedes(o.symbols[i].name, o.symbols[j].name)
      {
        BeforeIs(o.symbols[i].name, o.symbols[j].name);
      }
      if forall j :: 0 <= j < |o.symbols| ==> SymbolRule([|o.sections[0]|, |o.sections[1]|, |o.sections[2]|], o.symbols[j]) {
        EntryIs(o);
      }
      RelocsAre(o);
    }
  }

  lemma RelocsAre(o: Object)
    requires |o.sections| == 3
    ensures forall j :: 0 <= j < |o.relocs| ==>
              (ValidReloc(o.sections, |o.symbols|, o.relocs[j]) <==>
               RelocRule([|o.sections[0]|, |o.sections[1]|, |o.sections[2]|], |o.symbols|, o.relocs[j]))
    ensures (forall j :: 0 <= j < |o.relocs| ==> ValidReloc(o.sections, |o.symbols|, o.relocs[j])) ==>
              (Ordered(o.relocs, RelocBefore) <==> forall i, j :: 0 <= i < j < |o.relocs| ==> Behind(o.relocs[i], o.relocs[j]))
  {
  }
}
