/** When the verifier takes two pointer types for the same. */
module TypeChains {
  import opened Facts

  /** The type that is reached from t by k steps to the element type; 0 is none. */
  function Element(types: seq<Type>, t: nat, k: nat): nat
    decreases k
  {
    if k == 0 then t else Element(types, if 1 <= t <= |types| then types[t - 1].element else 0, k - 1)
  }

  /** Declared types that agree in everything but their elements. */
  predicate Alike(types: seq<Type>, a: nat, b: nat) {
    && 1 <= a <= |types| && 1 <= b <= |types|
    && types[a - 1] == types[b - 1].(element := types[a - 1].element)
  }

  /** After n steps both come to the same type, and are alike up to there. */
  ghost predicate MeetAfter(types: seq<Type>, a: nat, b: nat, n: nat) {
    Element(types, a, n) == Element(types, b, n) && forall k: nat :: k < n ==> Alike(types, Element(types, a, k), Element(types, b, k))
  }

  lemma MeetStep(types: seq<Type>, a: nat, b: nat, n: nat)
    requires n > 0 && Alike(types, a, b)
    ensures MeetAfter(types, a, b, n) <==> MeetAfter(types, types[a - 1].element, types[b - 1].element, n - 1)
  {
    var x, y := types[a - 1].element, types[b - 1].element;
    if MeetAfter(types, a, b, n) {
      forall k: nat | k < n - 1
        ensures Alike(types, Element(types, x, k), Element(types, y, k))
      {
        assert Alike(types, Element(types, a, k + 1), Element(types, b, k + 1));
      }
    }
    if MeetAfter(types, x, y, n - 1) {
      forall k: nat | k < n
        ensures Alike(types, Element(types, a, k), Element(types, b, k))
      {
        assert k > 0 ==> Alike(types, Element(types, x, k - 1), Element(types, y, k - 1));
      }
    }
  }

  lemma {:induction false} SameFrom(types: seq<Type>, a: nat, b: nat, depth: nat)
    requires depth <= 129
    ensures SameType(types, a, b, depth) <==> exists n: nat :: n + depth <= 129 && MeetAfter(types, a, b, n)
    decreases 129 - depth
  {
    hide MeetAfter;
    assert a == b ==> MeetAfter(types, a, b, 0) by {
      Nowhere(types, a, b);
    }
    if a != b && depth <= 128 && Alike(types, a, b) {
      var x, y := types[a - 1].element, types[b - 1].element;
      SameFrom(types, x, y, depth + 1);
      if n: nat :| n + depth + 1 <= 129 && MeetAfter(types, x, y, n) {
        MeetStep(types, a, b, n + 1);
        assert MeetAfter(types, a, b, n + 1);
      }
      if n: nat :| n + depth <= 129 && MeetAfter(types, a, b, n) {
        Nowhere(types, a, b);
        MeetStep(types, a, b, n);
      }
    } else if n: nat :| n + depth <= 129 && MeetAfter(types, a, b, n) {
      Nowhere(types, a, b);
      if n > 0 {
        FirstAlike(types, a, b, n);
      }
    }
  }

  lemma Nowhere(types: seq<Type>, a: nat, b: nat)
    ensures MeetAfter(types, a, b, 0) <==> a == b
  {
  }

  lemma FirstAlike(types: seq<Type>, a: nat, b: nat, n: nat)
    requires MeetAfter(types, a, b, n) && n > 0
    ensures Alike(types, a, b)
  {
    assert Alike(types, Element(types, a, 0), Element(types, b, 0));
  }

  /** Two types are the same when their chains of element types meet within 129 steps and are alike, in
      kind, space, bits and count, before. */
  lemma SameExactly(types: seq<Type>, a: nat, b: nat)
    ensures SameType(types, a, b, 0) <==> exists n: nat :: n <= 129 && MeetAfter(types, a, b, n)
  {
    SameFrom(types, a, b, 0);
    if n: nat :| n <= 129 && MeetAfter(types, a, b, n) {
      assert n + 0 <= 129;
    }
  }
}
