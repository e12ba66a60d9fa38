/** std::upper_bound on a sequence of keys. */
module Search {
  /** The first key greater than t; on increasing keys everything after it is greater too. */
  function UpperBound(keys: seq<int>, t: int): (r: nat)
    ensures r <= |keys| && (r < |keys| ==> t < keys[r])
    ensures forall j :: 0 <= j < r ==> keys[j] <= t
  {
    if keys == [] || t < keys[0] then 0 else 1 + UpperBound(keys[1..], t)
  }
}
