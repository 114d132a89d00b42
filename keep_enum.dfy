/**
 * `for_each_keep_pattern` of transition/table.rs: the recursive walk over
 * the six faces that hands every kept-count vector of a given total to a
 * callback.
 */
module KeepEnumeration {
  import opened Combinatorics
  import opened Probabilities


  function Min(a: nat, b: nat): nat
  {
    if a <= b then a else b
  }

  /**
   * `recurse` of `for_each_keep_pattern`: faces before `face` are fixed in
   * the buffer, each count of `face` up to `min(remaining, max_per_face)` is
   * tried in turn, and the last face takes what is left if that is within
   * the cap. The callback's calls are collected in `visited`.
   */
  method VisitKeepPatterns(kept: array<nat>, face: nat, remaining: nat, maxPerFace: nat, visited: seq<seq<nat>>)
      returns (out: seq<seq<nat>>)
    requires kept.Length == 6 && face <= 5 && remaining <= maxPerFace
    modifies kept
    ensures kept[..face] == old(kept[..face])
    ensures out == visited + Prefixed(old(kept[..face]), Comp(remaining, 6 - face))
    decreases 5 - face, 1
  {
    if face == 5 {
      out := VisitLastFace(kept, remaining, maxPerFace, visited);
      return;
    }
    ghost var p := kept[..face];
    ghost var m: nat := 6 - face;
    ghost var done: seq<seq<nat>> := [];
    out := visited;
    var bound := Min(remaining, maxPerFace);
    var c: nat := 0;
    while c <= bound
      invariant bound == remaining
      invariant kept[..face] == p
      invariant Comp(remaining, m) == done + CompFrom(remaining, m, c)
      invariant out == visited + Prefixed(p, done)
    {
      ghost var out0 := out;
      out := VisitKeepCount(kept, face, c, remaining - c, maxPerFace, out);
      WalkStep(p, visited, out0, out, done, remaining, m, c);
      done := done + Cons(c, Comp(remaining - c, m - 1));
      c := c + 1;
    }
  }

  /** The last face takes the dice that are left, when they are within the cap. */
  method VisitLastFace(kept: array<nat>, remaining: nat, maxPerFace: nat, visited: seq<seq<nat>>)
      returns (out: seq<seq<nat>>)
    requires kept.Length == 6 && remaining <= maxPerFace
    modifies kept
    ensures kept[..5] == old(kept[..5])
    ensures out == visited + Prefixed(old(kept[..5]), Comp(remaining, 1))
  {
    ghost var p := kept[..5];
    out := visited;
    if remaining <= maxPerFace {
      kept[5] := remaining;
      assert kept[..] == p + [remaining];
      assert kept[..5] == p;
      out := visited + [kept[..]];
    }
  }

  /** One turn of the loop: `c` kept dice of `face`, then the later faces share the rest. */
  method VisitKeepCount(kept: array<nat>, face: nat, c: nat, rest: nat, maxPerFace: nat, visited: seq<seq<nat>>)
      returns (out: seq<seq<nat>>)
    requires kept.Length == 6 && face < 5 && rest <= maxPerFace
    modifies kept
    ensures kept[..face] == old(kept[..face])
    ensures out == visited + Prefixed(old(kept[..face]), Cons(c, Comp(rest, 5 - face)))
    decreases 5 - face, 0
  {
    ghost var p := kept[..face];
    kept[face] := c;
    assert kept[..face + 1] == p + [c];
    out := VisitKeepPatterns(kept, face + 1, rest, maxPerFace, visited);
    assert kept[..face] == kept[..face + 1][..face];
    PrefixedCons(p, c, Comp(rest, 5 - face));
  }

  /**
   * `for_each_keep_pattern(total_kept)`: every six-entry count vector with
   * total `total_kept`, each once, in lexicographic order. It is called with
   * totals of at most five, for which the cap of five per face never binds.
   */
  method ForEachKeepPattern(totalKept: nat) returns (patterns: seq<seq<nat>>)
    requires totalKept <= 5
    ensures patterns == Comp(totalKept, 6)
  {
    var kept := new nat[6](_ => 0);
    var maxPerFace := 5;
    patterns := VisitKeepPatterns(kept, 0, totalKept, maxPerFace, []);
    forall i | 0 <= i < |Comp(totalKept, 6)| ensures Prefixed([], Comp(totalKept, 6))[i] == Comp(totalKept, 6)[i] {
      assert [] + Comp(totalKept, 6)[i] == Comp(totalKept, 6)[i];
    }
  }

  /** The keep patterns of a total are exactly the count vectors with that total, each once. */
  lemma KeepPatternsExactlyOnce(t: nat)
    ensures forall x :: x in Comp(t, 6) <==> |x| == 6 && Sum(x) == t
    ensures forall i, j :: 0 <= i < j < |Comp(t, 6)| ==> Comp(t, 6)[i] != Comp(t, 6)[j]
  {
    RollOutcomesExactlyOnce(t);
  }

}
