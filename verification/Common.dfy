/** What several modules need. */
module Common {
  datatype Option<+T> = None | Some(value: T)

  /** Distinct members of a set are no more than the set has. */
  lemma {:induction false} DistinctFit(xs: seq<nat>, all: set<nat>)
    requires forall i | 0 <= i < |xs| :: xs[i] in all
    requires forall i, j | 0 <= i < j < |xs| :: xs[i] != xs[j]
    ensures |xs| <= |all|
  {
    if xs != [] {
      var n := |xs| - 1;
      DistinctFit(xs[..n], all - {xs[n]});
    }
  }
}
