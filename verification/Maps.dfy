/** Sizes of maps. */
module Maps {

  lemma RemoveSize<T>(m: map<nat, T>, u: nat)
    requires u in m
    ensures |m - {u}| == |m| - 1
  {
    assert (m - {u}).Keys == m.Keys - {u};
    assert |m - {u}| == |(m - {u}).Keys| && |m| == |m.Keys|;
  }
}
