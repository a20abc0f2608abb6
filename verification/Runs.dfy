/** What a run of steps leaves behind of a flag that some steps set and others clear. */
module Runs {

  /** Some step sets the flag and no later one clears it, or it was set before and none clears it. */
  ghost predicate Holds<A(!new)>(before: bool, run: seq<A>, sets: A -> bool, clears: A -> bool) {
    (exists i :: 0 <= i < |run| && sets(run[i]) && forall j | i < j < |run| :: !clears(run[j]))
    || (before && forall i | 0 <= i < |run| :: !clears(run[i]))
  }

  /** The same, told from the first step on. */
  lemma {:induction false} HoldsStep<A(!new)>(before: bool, run: seq<A>, sets: A -> bool, clears: A -> bool)
    requires run != []
    ensures Holds(before, run, sets, clears)
            <==> Holds(sets(run[0]) || (before && !clears(run[0])), run[1..], sets, clears)
  {
    var rest, now := run[1..], sets(run[0]) || (before && !clears(run[0]));
    assert forall j | 0 < j < |run| :: run[j] == rest[j - 1];
    if Holds(before, run, sets, clears) {
      if i :| 0 <= i < |run| && sets(run[i]) && forall j | i < j < |run| :: !clears(run[j]) {
        if i > 0 {
          assert sets(rest[i - 1]) && forall j | i - 1 < j < |rest| :: !clears(rest[j]);
        } else {
          assert now && forall j | 0 <= j < |rest| :: !clears(rest[j]);
        }
      } else {
        assert now && forall j | 0 <= j < |rest| :: !clears(rest[j]);
      }
    }
    if Holds(now, rest, sets, clears) {
      if i :| 0 <= i < |rest| && sets(rest[i]) && forall j | i < j < |rest| :: !clears(rest[j]) {
        assert sets(run[i + 1]) && forall j | i + 1 < j < |run| :: !clears(run[j]);
      }
    }
  }

  /** The last step of a kind. */
  lemma {:induction false} LastOf<A>(run: seq<A>, kind: A -> bool) returns (i: nat)
    requires exists k :: 0 <= k < |run| && kind(run[k])
    ensures i < |run| && kind(run[i]) && forall j | i < j < |run| :: !kind(run[j])
  {
    var n := |run| - 1;
    if kind(run[n]) {
      i := n;
    } else {
      var k :| 0 <= k < |run| && kind(run[k]);
      assert run[..n][k] == run[k];
      i := LastOf(run[..n], kind);
    }
  }
}
