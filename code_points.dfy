/** Code-point intervals (`PairCodePoint`), the first-match scan over a list of
    them, and the manual code-to-pixel entries (`PairCodeCoord`) with their
    ordering. */
module CodePoints {
  import opened FontTypes

  /** A closed interval `[first, last]` of code points. */
  datatype PairCodePoint = PairCodePoint(first: Char, last: Char) {
    /** Whether `code` lies in the interval. A reversed interval
        (`last < first`) contains no code. */
    predicate IsExist(code: Char)
      ensures IsExist(code) ==> first <= last
    {
      code >= first && code <= last
    }
  }

  /** Whether some interval of `ps` contains `code`. */
  predicate AnyContains(ps: seq<PairCodePoint>, code: Char) {
    exists i :: 0 <= i < |ps| && ps[i].IsExist(code)
  }

  /** The index of the first interval of `ps`, in list order, that contains
      `code`: the scan a lookup over registered ranges performs. Overlapping
      intervals are allowed and the earliest one wins. */
  function FirstContaining(ps: seq<PairCodePoint>, code: Char): (r: Option<nat>)
    ensures r.None? <==> !AnyContains(ps, code)
    ensures r.Some? ==> r.value < |ps| && ps[r.value].IsExist(code)
    ensures r.Some? ==> forall j :: 0 <= j < r.value ==> !ps[j].IsExist(code)
  {
    if |ps| == 0 then None
    else if ps[0].IsExist(code) then Some(0)
    else
      var rest := FirstContaining(ps[1..], code);
      assert forall i :: 1 <= i < |ps| ==> ps[i] == ps[1..][i - 1];
      match rest
      case None => None
      case Some(k) => Some(k + 1)
  }

  /** Appending an interval never changes the answer for a code an earlier
      interval already contains, and a code no earlier interval contains is
      found in the new one exactly when the new one contains it. */
  lemma {:induction false} FirstContainingAppend(ps: seq<PairCodePoint>, p: PairCodePoint, code: Char)
    ensures FirstContaining(ps + [p], code) ==
      if AnyContains(ps, code) then FirstContaining(ps, code)
      else if p.IsExist(code) then Some(|ps|)
      else None
  {
    var qs := ps + [p];
    assert forall i :: 0 <= i < |ps| ==> qs[i] == ps[i];
    assert qs[|ps|] == p;
    if !AnyContains(ps, code) && !p.IsExist(code) {
      assert !AnyContains(qs, code) by {
        forall i | 0 <= i < |qs| ensures !qs[i].IsExist(code) {
          if i < |ps| { assert qs[i] == ps[i]; }
        }
      }
    }
  }

  /** A manually placed glyph: a code point and its pixel rectangle on the
      texture. */
  datatype PairCodeCoord = PairCodeCoord(code: Char, coord: IntCoord) {
    /** `operator <`: entries are ordered by code point alone, so entries
        with the same code are never less than one another. */
    predicate Less(other: PairCodeCoord)
      ensures Less(other) ==> code != other.code && !(other.code < code)
    {
      code < other.code
    }
  }

  /** Two entries are equivalent under `Less` (neither is less than the other). */
  predicate Equivalent(a: PairCodeCoord, b: PairCodeCoord) {
    !a.Less(b) && !b.Less(a)
  }

  /** `Less` is a strict weak order, as sorting the entries needs: it is
      irreflexive and transitive, and equivalence is exactly "same code point",
      whatever the rectangles are, so it is itself transitive. */
  lemma LessIsStrictWeakOrder(a: PairCodeCoord, b: PairCodeCoord, c: PairCodeCoord)
    ensures !a.Less(a)
    ensures a.Less(b) && b.Less(c) ==> a.Less(c)
    ensures a.Less(b) ==> !b.Less(a)
    ensures Equivalent(a, b) <==> a.code == b.code
    ensures Equivalent(a, b) && Equivalent(b, c) ==> Equivalent(a, c)
  {
  }
}
