/** The nonce space across any interleaving of requests: every request that
    emits a message, through either emitter entry point or through a
    deposit, takes the next nonce, and no other request touches it. */
module NonceSpace {
  import opened CctpTypes
  import opened KeeperState
  import opened NonceLedger
  import opened SendMessageSpec
  import opened DepositForBurnSpec
  import opened AdminSpec

  datatype Request =
    | Send(send: MsgSendMessage)
    | SendWithCaller(sendWithCaller: MsgSendMessageWithCaller)
    | Deposit(deposit: MsgDepositForBurn, destinationCaller: Bytes)
    | Unlink(unlink: MsgUnlinkTokenPair)
    | UpdateManager(update: MsgUpdateAttesterManager)

  function Allocated(r: Result<uint64>): Option<uint64> {
    if r.Ok? then Some(r.value) else None
  }

  /** One request applied to the store, and the nonce it allocated. */
  function Apply(env: Env, s: State, r: Request): (st: Step)
    ensures NonceLaw(s, st)
  {
    match r
    case Send(m) =>
      var o := SendMessage(env, s, m);
      Step(o.state, Allocated(o.result))
    case SendWithCaller(m) =>
      var o := SendMessageWithCaller(env, s, m);
      Step(o.state, Allocated(o.result))
    case Deposit(m, caller) =>
      var o := DepositForBurnWithCaller(env, s, m, caller);
      Step(o.state, Allocated(o.result))
    case Unlink(m) =>
      Step(UnlinkTokenPair(s, m).state, None)
    case UpdateManager(m) =>
      Step(UpdateAttesterManager(env, s, m).state, None)
  }

  /** The keeper's own step. */
  function KeeperStep(env: Env): (State, Request) -> Step {
    (s', r) => Apply(env, s', r)
  }

  /** The keeper run over a sequence of requests: the final store and the
      nonces handed out, in order. */
  function Run(env: Env, s: State, rs: seq<Request>): (State, seq<uint64>) {
    RunWith(KeeperStep(env), s, rs)
  }

  lemma KeeperStepObeysNonceLaw(env: Env)
    ensures Lawful(KeeperStep(env))
  {
    forall s, r ensures NonceLaw(s, KeeperStep(env)(s, r)) {
      assert KeeperStep(env)(s, r) == Apply(env, s, r);
    }
  }

  /** Every request obeys the nonce law, so a run of requests allocates
      consecutive nonces. */
  lemma RunAllocatesConsecutively(env: Env, s: State, rs: seq<Request>)
    ensures AllocatesFrom(s.nextAvailableNonce, |rs|, Run(env, s, rs))
  {
    KeeperStepObeysNonceLaw(env);
    RunWithAllocatesConsecutively(KeeperStep(env), s, rs);
  }

  /** Without wrap-around, no two requests in a run are given the same nonce:
      the nonces strictly increase, one apart. */
  lemma RunNeverRepeatsNonce(env: Env, s: State, rs: seq<Request>)
    requires s.nextAvailableNonce + |rs| <= NonceModulus
    ensures var ns := Run(env, s, rs).1;
      forall i :: 0 <= i < |ns| ==> ns[i] == s.nextAvailableNonce + i
  {
    RunAllocatesConsecutively(env, s, rs);
    AllocatesWithoutWrap(s.nextAvailableNonce, |rs|, Run(env, s, rs));
  }
}
