/** The early-exit scan that picking a space and picking a stream share, and fresh numbers. */
module Search {
  /** The first index at or after `i` whose flag is set, or the length if there is none. */
  function First(flags: seq<bool>, i: nat := 0): (k: nat)
    requires i <= |flags|
    ensures i <= k <= |flags|
    ensures forall j :: i <= j < k ==> !flags[j]
    ensures k < |flags| ==> flags[k]
    decreases |flags| - i
  {
    if i == |flags| || flags[i] then i else First(flags, i + 1)
  }

  /** There is always a number that is not taken yet. */
  lemma {:induction false} Unused(used: set<nat>) returns (x: nat)
    ensures forall y: nat :: y in used ==> y < x
    decreases used
  {
    if y: nat :| y in used {
      x := Unused(used - {y});
      if x <= y { x := y + 1; }
      forall z: nat | z in used ensures z < x { assert z == y || z in used - {y}; }
    } else {
      x := 0;
    }
  }
}
