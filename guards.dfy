/** Every keeper operation starts with a chain of fail-fast checks. A chain
    is written here as a table of guards; the first guard that does not hold
    decides the error. This is the reference against which the hand-written
    `if` chains of the operations are proved. */
module Guards {
  import opened CctpTypes

  datatype Guard = Guard(holds: bool, error: Error)

  predicate AllHold(gs: seq<Guard>) {
    forall i :: 0 <= i < |gs| ==> gs[i].holds
  }

  /** The error of the first guard that fails, or None when all hold. */
  function FirstFailure(gs: seq<Guard>): (r: Option<Error>)
    ensures r.None? <==> AllHold(gs)
  {
    if gs == [] then None
    else if !gs[0].holds then Some(gs[0].error)
    else
      assert forall i :: 1 <= i < |gs| ==> gs[i] == gs[1..][i - 1];
      FirstFailure(gs[1..])
  }

  /** A reported failure is a failing guard all of whose predecessors hold. */
  lemma {:induction false} FirstFailureIsFirst(gs: seq<Guard>)
    requires FirstFailure(gs).Some?
    ensures exists i :: 0 <= i < |gs| && !gs[i].holds && FirstFailure(gs).value == gs[i].error && AllHold(gs[..i])
  {
    if !gs[0].holds {
      assert AllHold(gs[..0]);
    } else {
      FirstFailureIsFirst(gs[1..]);
      var j :| 0 <= j < |gs[1..]| && !gs[1..][j].holds && FirstFailure(gs[1..]).value == gs[1..][j].error &&
        AllHold(gs[1..][..j]);
      assert gs[..j + 1] == [gs[0]] + gs[1..][..j];
      assert AllHold(gs[..j + 1]);
    }
  }

  /** A guard table that ends in a passing suffix fails exactly as its prefix. */
  lemma {:induction false} FirstFailureOfPrefix(gs: seq<Guard>, rest: seq<Guard>)
    requires AllHold(rest)
    ensures FirstFailure(gs + rest) == FirstFailure(gs)
  {
    if gs == [] {
      assert gs + rest == rest;
    } else {
      assert (gs + rest)[1..] == gs[1..] + rest;
      FirstFailureOfPrefix(gs[1..], rest);
    }
  }

  /** The guard at position k decides the outcome when every earlier guard
      holds and it fails, whatever the later guards say. */
  lemma {:induction false} FirstFailureAt(gs: seq<Guard>, k: nat)
    requires k < |gs| && AllHold(gs[..k]) && !gs[k].holds
    ensures FirstFailure(gs) == Some(gs[k].error)
  {
    if k > 0 {
      assert gs[0] == gs[..k][0];
      assert gs[1..][..k - 1] == gs[..k][1..];
      FirstFailureAt(gs[1..], k - 1);
    }
  }

  /** Guards that all pass in front of a table do not change its outcome. */
  lemma {:induction false} FirstFailureAfterPassing(passed: seq<Guard>, gs: seq<Guard>)
    requires AllHold(passed)
    ensures FirstFailure(passed + gs) == FirstFailure(gs)
  {
    if passed == [] {
      assert passed + gs == gs;
    } else {
      assert (passed + gs)[0] == passed[0] && passed[0].holds;
      assert (passed + gs)[1..] == passed[1..] + gs;
      FirstFailureAfterPassing(passed[1..], gs);
    }
  }
}
