/** Random draws, supplied by the caller in place of Python's `random` module. */
module Draws {

  /** `random.randint(0, hi)`. The caller supplies an arbitrary raw sample, which is
      clamped into the inclusive range [0, hi]. Every in-range sample is returned as it
      is, so the outcomes this can produce are exactly those `randint` can produce. */
  function RandInt(hi: nat, raw: int): (r: nat)
    ensures r <= hi
    ensures 0 <= raw <= hi ==> r == raw
  {
    if raw < 0 then 0 else if raw > hi then hi else raw
  }
}
