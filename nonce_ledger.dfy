/** The nonce ledger in the abstract: any step function that either takes
    the stored nonce and stores its successor, or leaves the nonce alone,
    hands out consecutive nonces over a run of requests. */
module NonceLedger {
  import opened CctpTypes
  import opened KeeperState

  const NonceModulus: int := 0x1_0000_0000_0000_0000

  /** The state after one request and the nonce it allocated, if any. */
  datatype Step = Step(state: State, nonce: Option<uint64>)

  /** What every request does to the nonce: a request that allocates takes
      the stored nonce and stores its successor; any other leaves it. */
  ghost predicate NonceLaw(s: State, st: Step) {
    if st.nonce.Some? then
      st.nonce.value == s.nextAvailableNonce && st.state.nextAvailableNonce == NextNonce(s.nextAvailableNonce)
    else
      st.state.nextAvailableNonce == s.nextAvailableNonce
  }

  /** Every state and request obey the nonce law under `step`. */
  ghost predicate Lawful<R(!new)>(step: (State, R) -> Step) {
    forall s, r :: NonceLaw(s, step(s, r))
  }

  /** Runs requests in order with a given step: the final state and the
      nonces allocated. */
  function RunWith<R>(step: (State, R) -> Step, s: State, rs: seq<R>): (State, seq<uint64>)
    decreases |rs|
  {
    if rs == [] then (s, [])
    else
      var st := step(s, rs[0]);
      var rest := RunWith(step, st.state, rs[1..]);
      if st.nonce.Some? then (rest.0, [st.nonce.value] + rest.1) else rest
  }

  /** A run of `count` requests that started at stored nonce `n0` handed out
      `n0` and its successors, counted in uint64 arithmetic, and left the
      stored nonce just past them. */
  ghost predicate AllocatesFrom(n0: uint64, count: nat, run: (State, seq<uint64>)) {
    && |run.1| <= count
    && (forall i :: 0 <= i < |run.1| ==> run.1[i] == (n0 + i) % NonceModulus)
    && run.0.nextAvailableNonce == (n0 + |run.1|) % NonceModulus
  }

  /** Any step that obeys the nonce law allocates consecutive nonces. */
  lemma {:induction false} RunWithAllocatesConsecutively<R(!new)>(step: (State, R) -> Step, s: State, rs: seq<R>)
    requires Lawful(step)
    ensures AllocatesFrom(s.nextAvailableNonce, |rs|, RunWith(step, s, rs))
    decreases |rs|
  {
    if rs != [] {
      var st := step(s, rs[0]);
      assert NonceLaw(s, st);
      RunWithAllocatesConsecutively(step, st.state, rs[1..]);
      var rest := RunWith(step, st.state, rs[1..]);
      if st.nonce.Some? {
        assert RunWith(step, s, rs) == (rest.0, [st.nonce.value] + rest.1);
        AllocatesAfterOne(s.nextAvailableNonce, |rs| - 1, rest);
      }
    }
  }

  /** Allocating `n0` in front of a run that starts at its successor. */
  lemma AllocatesAfterOne(n0: uint64, count: nat, rest: (State, seq<uint64>))
    requires AllocatesFrom(NextNonce(n0), count, rest)
    ensures AllocatesFrom(n0, count + 1, (rest.0, [n0] + rest.1))
  {
    var ns := [n0] + rest.1;
    forall i | 0 <= i < |ns| ensures ns[i] == (n0 + i) % NonceModulus {
      if i > 0 {
        assert ns[i] == rest.1[i - 1] == (NextNonce(n0) + (i - 1)) % NonceModulus;
        ModSucc(n0, i - 1);
      }
    }
    ModSucc(n0, |rest.1|);
  }

  lemma ModSucc(n: uint64, i: nat)
    ensures (NextNonce(n) + i) % NonceModulus == (n + 1 + i) % NonceModulus
  {
    if n == UINT64_MAX {
      assert n + 1 + i == NonceModulus + i;
    }
  }

  /** Below the wrap-around, consecutive allocation is plain counting. */
  lemma AllocatesWithoutWrap(n0: uint64, count: nat, run: (State, seq<uint64>))
    requires AllocatesFrom(n0, count, run) && n0 + count <= NonceModulus
    ensures forall i :: 0 <= i < |run.1| ==> run.1[i] == n0 + i
  {
    forall i | 0 <= i < |run.1| ensures run.1[i] == n0 + i {
      assert run.1[i] == (n0 + i) % NonceModulus;
    }
  }
}
