/** Runs of failures at the end of a history of outcomes, oldest first; true is a success. */
module FailureRuns {

  /** How many outcomes, counting back from the last, are failures. */
  function FailuresAtEnd(h: seq<bool>): nat {
    if h == [] || h[|h| - 1] then 0 else 1 + FailuresAtEnd(h[..|h| - 1])
  }

  predicate EndsInThreeFailures(h: seq<bool>) {
    |h| >= 3 && !h[|h| - 1] && !h[|h| - 2] && !h[|h| - 3]
  }

  lemma ThreeFailuresAtEnd(h: seq<bool>)
    ensures FailuresAtEnd(h) >= 3 <==> EndsInThreeFailures(h)
  {
    if h != [] && !h[|h| - 1] {
      var g := h[..|h| - 1];
      assert FailuresAtEnd(h) == 1 + FailuresAtEnd(g);
      if g != [] && !g[|g| - 1] {
        var f := g[..|g| - 1];
        assert FailuresAtEnd(g) == 1 + FailuresAtEnd(f);
        assert |h| >= 3 ==> f[|f| - 1] == h[|h| - 3];
        assert FailuresAtEnd(f) >= 1 <==> f != [] && !f[|f| - 1];
      }
    }
  }

  lemma OneMore(h: seq<bool>, outcome: bool)
    ensures FailuresAtEnd(h + [outcome]) == if outcome then 0 else 1 + FailuresAtEnd(h)
  {
  }
}
