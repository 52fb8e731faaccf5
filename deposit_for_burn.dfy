/** The burn orchestrator: `depositForBurn` as a state transition. A fixed
    chain of fail-fast checks, then the transfer into module custody, the
    burn, the burn message, and the hand-off to the message emitter, whose
    nonce it returns. */
module DepositForBurnSpec {
  import opened CctpTypes
  import opened KeeperState
  import opened Guards
  import opened SendMessageSpec

  /** A deposit request. `mintRecipient` keeps Go's distinction between a
      nil slice (None) and an empty one (Some([])). */
  datatype MsgDepositForBurn = MsgDepositForBurn(
    from: string,
    amount: int,
    destinationDomain: uint32,
    mintRecipient: Option<Bytes>,
    burnToken: string)

  const AmountError := Error(ErrDepositForBurn, "amount must be positive")
  const MintRecipientError := Error(ErrDepositForBurn, "mint recipient must be nonzero")
  const MessengerError := Error(ErrDepositForBurn, "unable to look up destination token messenger")
  const BurnPausedError := Error(ErrBurn, "burning and minting are paused")
  const BurnLimitError := Error(ErrBurn, "cannot burn more than the maximum per message burn limit")
  const EncodeError := Error(ErrParsingBurnMessage, "error parsing burn message into bytes")

  function DenomError(burnToken: string): Error {
    Error(ErrBurn, "burning denom: " + burnToken + " is not supported")
  }

  /** Only a nil mint recipient or the 32-byte zero word is refused. */
  predicate MintRecipientSet(r: Option<Bytes>) {
    r.Some? && r.value != Zeros(MintRecipientLen)
  }

  /** Limits are looked up under the lower-cased denomination; a missing
      entry means no limit, and the limit itself may be burnt. */
  predicate WithinBurnLimit(s: State, burnToken: string, amount: int) {
    var key := ToLower(burnToken);
    key !in s.perMessageBurnLimits || amount <= s.perMessageBurnLimits[key]
  }

  /** The seven checks, in the order they run. */
  function DepositGuards(env: Env, s: State, msg: MsgDepositForBurn): seq<Guard> {
    [ Guard(env.parseAddress(msg.from).Some?, InvalidFromError),
      Guard(msg.amount > 0, AmountError),
      Guard(MintRecipientSet(msg.mintRecipient), MintRecipientError),
      Guard(msg.destinationDomain in s.remoteTokenMessengers, MessengerError),
      Guard(EqualFold(env.mintingDenom, msg.burnToken), DenomError(msg.burnToken)),
      Guard(!IsPaused(s.burningAndMintingPaused), BurnPausedError),
      Guard(WithinBurnLimit(s, msg.burnToken, msg.amount), BurnLimitError) ]
  }

  /** The depositor's account bytes (empty when `from` does not parse, a case
      the first check rejects). */
  function Depositor(env: Env, msg: MsgDepositForBurn): Bytes {
    var a := env.parseAddress(msg.from);
    if a.Some? then a.value else []
  }

  function CoinOf(msg: MsgDepositForBurn): Coin {
    Coin(msg.burnToken, msg.amount)
  }

  function Transferred(env: Env, msg: MsgDepositForBurn): Effect {
    TransferredToModule(Depositor(env, msg), CoinOf(msg))
  }

  /** The deposit event. Unlike the burn message, it hashes the denomination
      exactly as the depositor spelled it. */
  function DepositEvent(env: Env, msg: MsgDepositForBurn, n: uint64, tokenMessenger: Bytes,
                        destinationCaller: Bytes): Effect
  {
    DepositForBurnEvent(n, env.keccak(msg.burnToken), msg.amount, msg.from,
                        if msg.mintRecipient.Some? then msg.mintRecipient.value else [],
                        msg.destinationDomain, tokenMessenger, destinationCaller)
  }

  /** The burn message built for a deposit: the hash of the lower-cased
      denomination, the mint recipient as given, the amount, and the
      depositor as a 32-byte sender word. */
  function BurnMessageOf(env: Env, msg: MsgDepositForBurn): (bm: BurnMessage)
    ensures bm.version == MessageBodyVersion
    ensures bm.burnToken == env.keccak(ToLower(msg.burnToken))
    ensures msg.mintRecipient.Some? ==> bm.mintRecipient == msg.mintRecipient.value
    ensures bm.amount == msg.amount
    ensures |bm.messageSender| == MessageSenderLen
    ensures |Depositor(env, msg)| == 20 ==> bm.messageSender == Zeros(12) + Depositor(env, msg)
  {
    var sender := SenderWord(Depositor(env, msg));
    SenderWordOfAccount(Depositor(env, msg));
    BurnMessage(MessageBodyVersion, env.keccak(ToLower(msg.burnToken)),
                if msg.mintRecipient.Some? then msg.mintRecipient.value else [],
                msg.amount, sender)
  }

  /** A 20-byte account address lands whole after 12 zero bytes. */
  lemma SenderWordOfAccount(addr: Bytes)
    ensures |addr| == 20 ==> SenderWord(addr) == Zeros(12) + addr
  {
    if |addr| == 20 {
      var w := SenderWord(addr);
      forall i | 0 <= i < 32 ensures w[i] == (Zeros(12) + addr)[i] {
        if i < 12 {
          assert w[i] == w[..12][i];
        } else {
          assert w[12 + (i - 12)] == addr[i - 12];
        }
      }
    }
  }

  /** Distinct 20-byte accounts give distinct sender words. */
  lemma SenderWordInjective(a: Bytes, b: Bytes)
    requires |a| == 20 && |b| == 20 && a != b
    ensures SenderWord(a) != SenderWord(b)
  {
    var i :| 0 <= i < 20 && a[i] != b[i];
    assert SenderWord(a)[12 + i] == a[i];
    assert SenderWord(b)[12 + i] == b[i];
  }

  /** Go's `copy` keeps only the first 20 bytes of a longer address, so two
      32-byte accounts that share those bytes get the same sender word. */
  lemma SenderWordTruncates(a: Bytes)
    requires |a| >= 20
    ensures SenderWord(a) == SenderWord(a[..20])
  {
    var w, v := SenderWord(a), SenderWord(a[..20]);
    forall i | 0 <= i < 32 ensures w[i] == v[i] {
      if i < 12 {
        assert w[i] == w[..12][i] && v[i] == v[..12][i];
      } else {
        assert w[12 + (i - 12)] == a[i - 12];
        assert v[12 + (i - 12)] == a[..20][i - 12];
      }
    }
  }

  /** The emitter entry point chosen by the deposit: plain `SendMessage`
      without a destination caller, `SendMessageWithCaller` with one. The
      module account is the sender and the remote token messenger the
      recipient. */
  function Delegate(env: Env, s: State, domain: uint32, recipient: Bytes, body: Bytes,
                    destinationCaller: Bytes): Outcome<uint64>
  {
    if |destinationCaller| == 0 then
      SendMessage(env, s, MsgSendMessage(env.moduleAddress, domain, recipient, body))
    else
      SendMessageWithCaller(env, s, MsgSendMessageWithCaller(env.moduleAddress, domain, recipient, body, destinationCaller))
  }

  /** The hand-off to the emitter followed, on success, by the deposit
      event. */
  function SendAndRecord(env: Env, s: State, msg: MsgDepositForBurn, tokenMessenger: Bytes, body: Bytes,
                         destinationCaller: Bytes): Outcome<uint64>
  {
    var sent := Delegate(env, s, msg.destinationDomain, tokenMessenger, body, destinationCaller);
    match sent.result
    case Err(e) => sent
    case Ok(n) => Outcome(sent.state, sent.effects + [DepositEvent(env, msg, n, tokenMessenger, destinationCaller)], Ok(n))
  }

  /** Every check passed and both collaborators accepted the transfer and the
      burn, and the burn message encoded. */
  ghost predicate ReachesEmitter(env: Env, s: State, msg: MsgDepositForBurn) {
    && AllHold(DepositGuards(env, s, msg))
    && env.transfer(Depositor(env, msg), CoinOf(msg)).None?
    && env.burn(CoinOf(msg)).None?
    && env.encode(BurnMessageOf(env, msg)).Some?
  }

  /** The fail-fast prefix of `depositForBurn`: the first check that fails,
      or None when the request may proceed to the burn. */
  function DepositCheck(env: Env, s: State, msg: MsgDepositForBurn): (r: Option<Error>)
    ensures r == FirstFailure(DepositGuards(env, s, msg))
  {
    var gs := DepositGuards(env, s, msg);
    if env.parseAddress(msg.from).None? then
      FirstFailureAt(gs, 0);
      Some(InvalidFromError)
    else if !(msg.amount > 0) then
      FirstFailureAt(gs, 1);
      Some(AmountError)
    else if !MintRecipientSet(msg.mintRecipient) then
      FirstFailureAt(gs, 2);
      Some(MintRecipientError)
    else if msg.destinationDomain !in s.remoteTokenMessengers then
      FirstFailureAt(gs, 3);
      Some(MessengerError)
    else if !EqualFold(env.mintingDenom, msg.burnToken) then
      FirstFailureAt(gs, 4);
      Some(DenomError(msg.burnToken))
    else if IsPaused(s.burningAndMintingPaused) then
      FirstFailureAt(gs, 5);
      Some(BurnPausedError)
    else if !WithinBurnLimit(s, msg.burnToken, msg.amount) then
      FirstFailureAt(gs, 6);
      Some(BurnLimitError)
    else
      assert AllHold(gs);
      None
  }

  /** What follows the checks: transfer into custody, burn, encode, send. */
  function BurnAndSend(env: Env, s: State, msg: MsgDepositForBurn, destinationCaller: Bytes): (o: Outcome<uint64>)
    requires msg.destinationDomain in s.remoteTokenMessengers
    // a refused transfer leaves nothing behind; a refused burn leaves the
    // transfer; a failed encoding leaves both, and no rollback is attempted
    ensures match env.transfer(Depositor(env, msg), CoinOf(msg))
      case Some(e) => o == Outcome(s, [], Err(Wrap(e, "error during transfer")))
      case None =>
        match env.burn(CoinOf(msg))
        case Some(e) => o == Outcome(s, [Transferred(env, msg)], Err(Wrap(e, "error during burn")))
        case None =>
          env.encode(BurnMessageOf(env, msg)).None? ==>
            o == Outcome(s, [Transferred(env, msg), BurnedFromModule(CoinOf(msg))], Err(EncodeError))
    // past the burn, the result is the emitter's, error or nonce, unchanged,
    // and the deposit event follows a successful send
    ensures env.transfer(Depositor(env, msg), CoinOf(msg)).None? && env.burn(CoinOf(msg)).None? &&
            env.encode(BurnMessageOf(env, msg)).Some? ==>
      var sent := SendAndRecord(env, s, msg, s.remoteTokenMessengers[msg.destinationDomain].address,
                                env.encode(BurnMessageOf(env, msg)).value, destinationCaller);
      o == Outcome(sent.state, [Transferred(env, msg), BurnedFromModule(CoinOf(msg))] + sent.effects, sent.result)
  {
    match env.transfer(Depositor(env, msg), CoinOf(msg))
    case Some(e) => Fail(s, Wrap(e, "error during transfer"))
    case None =>
      var rest := BurnThenSend(env, s, msg, s.remoteTokenMessengers[msg.destinationDomain].address, destinationCaller);
      Outcome(rest.state, [Transferred(env, msg)] + rest.effects, rest.result)
  }

  /** The burn of the coin now in custody, then the burn message. */
  function BurnThenSend(env: Env, s: State, msg: MsgDepositForBurn, tokenMessenger: Bytes,
                        destinationCaller: Bytes): Outcome<uint64>
  {
    match env.burn(CoinOf(msg))
    case Some(e) => Fail(s, Wrap(e, "error during burn"))
    case None =>
      var sent := EncodeAndSend(env, s, msg, tokenMessenger, destinationCaller);
      Outcome(sent.state, [BurnedFromModule(CoinOf(msg))] + sent.effects, sent.result)
  }

  /** The burn message is encoded and handed to the emitter; an encoding
      failure stops the deposit with nothing further done. */
  function EncodeAndSend(env: Env, s: State, msg: MsgDepositForBurn, tokenMessenger: Bytes,
                         destinationCaller: Bytes): Outcome<uint64>
  {
    match env.encode(BurnMessageOf(env, msg))
    case None => Fail(s, EncodeError)
    case Some(body) => SendAndRecord(env, s, msg, tokenMessenger, body, destinationCaller)
  }

  /** The generalized `depositForBurn`, with an optional destination caller. */
  function DepositForBurnWithCaller(env: Env, s: State, msg: MsgDepositForBurn,
                                    destinationCaller: Bytes): (o: Outcome<uint64>)
    // the first failing check decides, before any side effect
    ensures FirstFailure(DepositGuards(env, s, msg)).Some? ==>
      o == Outcome(s, [], Err(FirstFailure(DepositGuards(env, s, msg)).value))
    // only the nonce ever changes, and only by one allocation
    ensures o.result.Ok? ==>
      && ReachesEmitter(env, s, msg)
      && o.result.value == s.nextAvailableNonce
      && o.state == s.(nextAvailableNonce := NextNonce(s.nextAvailableNonce))
    ensures o.result.Err? ==> o.state == s
  {
    match DepositCheck(env, s, msg)
    case Some(e) => Fail(s, e)
    case None => BurnAndSend(env, s, msg, destinationCaller)
  }

  /** The message-server entry point: no destination caller, so any address
      may deliver the message on the destination domain. */
  function DepositForBurn(env: Env, s: State, msg: MsgDepositForBurn): Outcome<uint64> {
    DepositForBurnWithCaller(env, s, msg, [])
  }

  /** Once the first six checks pass, the burn limit alone decides: the
      request is refused exactly when a limit is stored under the lower-cased
      denomination and the amount exceeds it. */
  lemma BurnLimitDecides(env: Env, s: State, msg: MsgDepositForBurn)
    requires AllHold(DepositGuards(env, s, msg)[..6])
    ensures DepositCheck(env, s, msg) == Some(BurnLimitError) <==>
      (ToLower(msg.burnToken) in s.perMessageBurnLimits &&
       msg.amount > s.perMessageBurnLimits[ToLower(msg.burnToken)])
    ensures DepositCheck(env, s, msg).None? <==> WithinBurnLimit(s, msg.burnToken, msg.amount)
  {
    var gs := DepositGuards(env, s, msg);
    if !WithinBurnLimit(s, msg.burnToken, msg.amount) {
      FirstFailureAt(gs, 6);
    } else {
      assert gs == gs[..6] + [gs[6]];
      FirstFailureOfPrefix(gs[..6], [gs[6]]);
    }
  }

  /** The emitter never reads the burn pause flag. */
  lemma DelegateIgnoresBurnPause(env: Env, s: State, domain: uint32, recipient: Bytes, body: Bytes,
                                 destinationCaller: Bytes)
    ensures var unset := Delegate(env, s.(burningAndMintingPaused := None), domain, recipient, body, destinationCaller);
      var unpaused := Delegate(env, s.(burningAndMintingPaused := Some(false)), domain, recipient, body, destinationCaller);
      && unset.result == unpaused.result
      && unset.effects == unpaused.effects
      && unset.state == unpaused.state.(burningAndMintingPaused := None)
  {
    var s0, s1 := s.(burningAndMintingPaused := None), s.(burningAndMintingPaused := Some(false));
    if |destinationCaller| == 0 {
      var m := MsgSendMessage(env.moduleAddress, domain, recipient, body);
      assert SendMessageGuards(env, s0, m) == SendMessageGuards(env, s1, m);
    } else {
      var m := MsgSendMessageWithCaller(env.moduleAddress, domain, recipient, body, destinationCaller);
      assert SendMessageWithCallerGuards(env, s0, m) == SendMessageWithCallerGuards(env, s1, m);
    }
  }

  /** An unset burn pause flag behaves exactly as an explicit "not paused". */
  lemma UnsetBurnPauseIsUnpaused(env: Env, s: State, msg: MsgDepositForBurn, destinationCaller: Bytes)
    ensures var unset := DepositForBurnWithCaller(env, s.(burningAndMintingPaused := None), msg, destinationCaller);
      var unpaused := DepositForBurnWithCaller(env, s.(burningAndMintingPaused := Some(false)), msg, destinationCaller);
      && unset.result == unpaused.result
      && unset.effects == unpaused.effects
      && unset.state == unpaused.state.(burningAndMintingPaused := None)
  {
    var s0, s1 := s.(burningAndMintingPaused := None), s.(burningAndMintingPaused := Some(false));
    assert DepositGuards(env, s0, msg) == DepositGuards(env, s1, msg);
    if DepositCheck(env, s0, msg).None? && env.encode(BurnMessageOf(env, msg)).Some? {
      assert DepositGuards(env, s0, msg)[3].holds;
      DelegateIgnoresBurnPause(env, s, msg.destinationDomain, s.remoteTokenMessengers[msg.destinationDomain].address,
                               env.encode(BurnMessageOf(env, msg)).value, destinationCaller);
    }
  }

  /** The denomination check and the burn limit ignore ASCII case, and so does
      the burn message: two spellings of one denomination pass the same checks
      and produce the same burn message. */
  lemma DepositIgnoresDenomCase(env: Env, s: State, msg: MsgDepositForBurn, spelling: string)
    requires EqualFold(msg.burnToken, spelling)
    ensures DepositCheck(env, s, msg).None? <==> DepositCheck(env, s, msg.(burnToken := spelling)).None?
    ensures BurnMessageOf(env, msg) == BurnMessageOf(env, msg.(burnToken := spelling))
  {
    var gs, hs := DepositGuards(env, s, msg), DepositGuards(env, s, msg.(burnToken := spelling));
    assert forall i :: 0 <= i < |gs| ==> gs[i].holds == hs[i].holds;
    assert AllHold(gs) <==> AllHold(hs);
  }

  /** Without a destination caller the hand-off is plain `SendMessage`, and
      no message it records carries a destination caller. */
  lemma SendAndRecordWithoutCaller(env: Env, s: State, msg: MsgDepositForBurn, tokenMessenger: Bytes, body: Bytes)
    ensures var o := SendAndRecord(env, s, msg, tokenMessenger, body, []);
      && o.result == SendMessage(env, s, MsgSendMessage(env.moduleAddress, msg.destinationDomain, tokenMessenger, body)).result
      && forall e <- o.effects :: e.MessageSent? ==> e.envelope.destinationCaller == []
  {
    var m := MsgSendMessage(env.moduleAddress, msg.destinationDomain, tokenMessenger, body);
    var sent := SendMessage(env, s, m);
    assert Delegate(env, s, msg.destinationDomain, tokenMessenger, body, []) == sent;
    var o := SendAndRecord(env, s, msg, tokenMessenger, body, []);
    if FirstFailure(SendMessageGuards(env, s, m)).Some? {
      assert o.effects == [];
    } else {
      var envelope := EnvelopeFor(env, s.nextAvailableNonce, m.from, m.destinationDomain, m.recipient, [], m.messageBody);
      assert o.effects == [MessageSent(envelope), DepositEvent(env, msg, s.nextAvailableNonce, tokenMessenger, [])];
    }
  }

  /** `DepositForBurn` always reaches the emitter through plain
      `SendMessage`: its result is that call's, and every message it sends
      carries no destination caller. */
  lemma DepositForBurnUsesSendMessage(env: Env, s: State, msg: MsgDepositForBurn)
    ensures var o := DepositForBurn(env, s, msg);
      && (ReachesEmitter(env, s, msg) ==>
            msg.destinationDomain in s.remoteTokenMessengers &&
            o.result == SendMessage(env, s, MsgSendMessage(
              env.moduleAddress, msg.destinationDomain,
              s.remoteTokenMessengers[msg.destinationDomain].address,
              env.encode(BurnMessageOf(env, msg)).value)).result)
      && (forall e <- o.effects :: e.MessageSent? ==> e.envelope.destinationCaller == [])
  {
    var o := DepositForBurn(env, s, msg);
    if DepositCheck(env, s, msg).None? {
      assert DepositGuards(env, s, msg)[3].holds;
      assert o == BurnAndSend(env, s, msg, []);
      if ReachesEmitter(env, s, msg) {
        SendAndRecordWithoutCaller(env, s, msg, s.remoteTokenMessengers[msg.destinationDomain].address,
                                   env.encode(BurnMessageOf(env, msg)).value);
      }
    }
  }
}
