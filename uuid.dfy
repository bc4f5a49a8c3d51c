/**
 * Stand-in for uuid.New(): the model never draws a random value; it picks
 * any non-empty string that is not already in use, which is what the
 * program relies on a version-4 uuid to be.
 */
module Uuid {
  /** A bound on the lengths of the strings in `s`. */
  ghost function MaxLength(s: set<string>): (m: nat)
    ensures forall x :: x in s ==> |x| <= m
    decreases s
  {
    if s == {} then 0
    else
      var x :| x in s;
      var rest := MaxLength(s - {x});
      if |x| > rest then |x| else rest
  }

  /** However many ids are in use, a fresh non-empty one exists. */
  lemma FreshIdExists(used: set<string>)
    ensures exists id: string :: id != "" && id !in used
  {
    var id := seq(MaxLength(used) + 1, _ => 'u');
    assert id !in used;
  }
}
