/** Sequences put together from several sources, each entry with the source it came from. */
module Origins {
  /** The entries of one source, in order. */
  function From<T>(taken: seq<T>, source: seq<nat>, i: nat): seq<T>
    requires |taken| == |source|
  {
    if taken == [] then [] else
      var n := |taken| - 1;
      From(taken[..n], source[..n], i) + if source[n] == i then [taken[n]] else []
  }

  lemma {:induction false} FromAppend<T>(taken: seq<T>, source: seq<nat>, x: T, who: nat, i: nat)
    requires |taken| == |source|
    ensures From(taken + [x], source + [who], i) == From(taken, source, i) + if who == i then [x] else []
  {
    assert (taken + [x])[..|taken|] == taken && (source + [who])[..|source|] == source;
  }
}
