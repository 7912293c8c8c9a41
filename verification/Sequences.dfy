/** Searching and comparing sequences. */
module Sequences {
  import opened Wrappers

  /** The place of the first element that passes `test`. */
  function FindFirst<T>(s: seq<T>, test: T -> bool): (at: Option<nat>)
    ensures at.Some? ==> at.value < |s| && test(s[at.value]) && forall k | 0 <= k < at.value :: !test(s[k])
    ensures at.None? ==> forall k | 0 <= k < |s| :: !test(s[k])
  {
    if s == [] then None
    else
      var n := |s| - 1;
      var earlier := FindFirst(s[..n], test);
      if earlier.Some? then earlier else if test(s[n]) then Some(n) else None
  }

  /** No id comes twice. */
  predicate Unique(ids: seq<string>) {
    forall i, j | 0 <= i < j < |ids| :: ids[i] != ids[j]
  }

  lemma Regroup<T>(a: seq<T>, x: T, b: seq<T>)
    ensures (a + [x]) + b == a + ([x] + b)
  {
  }
}
