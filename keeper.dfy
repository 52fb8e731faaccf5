/** The CCTP keeper as an object: its store is a set of fields that the
    message-server operations read and overwrite in place. Each operation is
    proved to perform exactly the transition its specification function
    describes, and the calls to the outside world are recorded in a ghost
    log. */
module CctpKeeper {
  import opened CctpTypes
  import opened KeeperState
  import Send = SendMessageSpec
  import Deposit = DepositForBurnSpec
  import Admin = AdminSpec

  class Keeper {
    const env: Env

    var nextAvailableNonce: uint64
    var sendingAndReceivingMessagesPaused: Option<bool>
    var burningAndMintingPaused: Option<bool>
    var maxMessageBodySize: Option<uint64>
    var perMessageBurnLimits: map<string, int>
    var remoteTokenMessengers: map<uint32, RemoteTokenMessenger>
    var tokenPairs: map<TokenPairKey, TokenPair>
    var owner: string
    var attesterManager: string
    var tokenController: string

    /** Transfers, burns, emitted messages and events, oldest first. */
    ghost var log: seq<Effect>

    /** The store as one value. */
    function Store(): State
      reads this`nextAvailableNonce, this`sendingAndReceivingMessagesPaused, this`burningAndMintingPaused,
            this`maxMessageBodySize, this`perMessageBurnLimits, this`remoteTokenMessengers, this`tokenPairs,
            this`owner, this`attesterManager, this`tokenController
    {
      State(nextAvailableNonce, sendingAndReceivingMessagesPaused, burningAndMintingPaused,
            maxMessageBodySize, perMessageBurnLimits, remoteTokenMessengers, tokenPairs,
            owner, attesterManager, tokenController)
    }

    /** The store's token pairs are keyed consistently. */
    ghost predicate Valid()
      reads this`tokenPairs
    {
      PairsKeyed(tokenPairs)
    }

    constructor (env: Env, genesis: State)
      requires KeeperState.Valid(genesis)
      ensures Valid() && Store() == genesis && this.env == env && log == []
    {
      this.env := env;
      nextAvailableNonce := genesis.nextAvailableNonce;
      sendingAndReceivingMessagesPaused := genesis.sendingAndReceivingMessagesPaused;
      burningAndMintingPaused := genesis.burningAndMintingPaused;
      maxMessageBodySize := genesis.maxMessageBodySize;
      perMessageBurnLimits := genesis.perMessageBurnLimits;
      remoteTokenMessengers := genesis.remoteTokenMessengers;
      tokenPairs := genesis.tokenPairs;
      owner := genesis.owner;
      attesterManager := genesis.attesterManager;
      tokenController := genesis.tokenController;
      log := [];
    }

    /** The nonce ledger's one operation: hand out the stored nonce and store
        its successor, in one step. */
    method ReserveAndIncrementNonce() returns (n: uint64)
      modifies this`nextAvailableNonce
      ensures n == old(nextAvailableNonce) && nextAvailableNonce == NextNonce(n)
    {
      n := nextAvailableNonce;
      nextAvailableNonce := NextNonce(n);
    }

    /** The emitter checks both entry points share (pause flag, recipient,
        body size), then the nonce allocation and the emitted envelope. */
    method Emit(sender: Bytes, msg: Send.MsgSendMessageWithCaller) returns (r: Result<uint64>)
      requires Valid()
      modifies this`nextAvailableNonce, this`log
      ensures Valid()
      ensures var o := Send.Emit(old(Store()), sender, msg);
        Store() == o.state && r == o.result && log == old(log) + o.effects
    {
      if IsPaused(sendingAndReceivingMessagesPaused) {
        return Err(Send.PausedError);
      }
      if !IsNonZero(msg.recipient) {
        return Err(Send.RecipientError);
      }
      if maxMessageBodySize.Some? && |msg.messageBody| > maxMessageBodySize.value {
        return Err(Send.BodyTooLongError);
      }
      var nonce := ReserveAndIncrementNonce();
      log := log + [MessageSent(Envelope(nonce, SenderWord(sender), msg.destinationDomain,
                                         msg.recipient, msg.destinationCaller, msg.messageBody))];
      r := Ok(nonce);
    }

    method SendMessage(msg: Send.MsgSendMessage) returns (r: Result<uint64>)
      requires Valid()
      modifies this`nextAvailableNonce, this`log
      ensures Valid()
      ensures var o := Send.SendMessage(env, old(Store()), msg);
        Store() == o.state && r == o.result && log == old(log) + o.effects
      ensures r.Ok? ==> r.value == old(nextAvailableNonce) && nextAvailableNonce == NextNonce(r.value)
      ensures r.Err? ==> Store() == old(Store()) && log == old(log)
    {
      var sender := env.parseAddress(msg.from);
      if sender.None? {
        return Err(Send.InvalidFromError);
      }
      r := Emit(sender.value, Send.MsgSendMessageWithCaller(
                  msg.from, msg.destinationDomain, msg.recipient, msg.messageBody, []));
    }

    method SendMessageWithCaller(msg: Send.MsgSendMessageWithCaller) returns (r: Result<uint64>)
      requires Valid()
      modifies this`nextAvailableNonce, this`log
      ensures Valid()
      ensures var o := Send.SendMessageWithCaller(env, old(Store()), msg);
        Store() == o.state && r == o.result && log == old(log) + o.effects
      ensures r.Ok? ==> r.value == old(nextAvailableNonce) && nextAvailableNonce == NextNonce(r.value)
      ensures r.Err? ==> Store() == old(Store()) && log == old(log)
    {
      var sender := env.parseAddress(msg.from);
      if sender.None? {
        return Err(Send.InvalidFromError);
      }
      if !IsNonZero(msg.destinationCaller) {
        return Err(Send.DestinationCallerError);
      }
      r := Emit(sender.value, msg);
    }

    /** The message-server `DepositForBurn`: no destination caller. */
    method DepositForBurn(msg: Deposit.MsgDepositForBurn) returns (nonce: uint64, err: Option<Error>)
      requires Valid()
      modifies this`nextAvailableNonce, this`log
      ensures Valid()
      ensures var o := Deposit.DepositForBurn(env, old(Store()), msg);
        && Store() == o.state && log == old(log) + o.effects
        && nonce == (if o.result.Ok? then o.result.value else 0)
        && err == (if o.result.Ok? then None else Some(o.result.error))
    {
      nonce, err := DepositForBurnWithCaller(msg, []);
    }

    /** The generalized `depositForBurn`. Go style: the nonce is 0 whenever
        an error is returned. */
    method DepositForBurnWithCaller(msg: Deposit.MsgDepositForBurn, destinationCaller: Bytes)
      returns (nonce: uint64, err: Option<Error>)
      requires Valid()
      modifies this`nextAvailableNonce, this`log
      ensures Valid()
      ensures var o := Deposit.DepositForBurnWithCaller(env, old(Store()), msg, destinationCaller);
        && Store() == o.state && log == old(log) + o.effects
        && nonce == (if o.result.Ok? then o.result.value else 0)
        && err == (if o.result.Ok? then None else Some(o.result.error))
      ensures err.Some? ==> nonce == 0 && Store() == old(Store())
      ensures err.None? ==> nonce == old(nextAvailableNonce) && nextAvailableNonce == NextNonce(nonce)
    {
      var fromAccAddress := env.parseAddress(msg.from);
      if fromAccAddress.None? {
        return 0, Some(Send.InvalidFromError);
      }
      if !(msg.amount > 0) {
        return 0, Some(Deposit.AmountError);
      }
      if msg.mintRecipient.None? || msg.mintRecipient.value == Zeros(MintRecipientLen) {
        return 0, Some(Deposit.MintRecipientError);
      }
      if msg.destinationDomain !in remoteTokenMessengers {
        return 0, Some(Deposit.MessengerError);
      }
      var tokenMessenger := remoteTokenMessengers[msg.destinationDomain];
      if !EqualFold(env.mintingDenom, msg.burnToken) {
        return 0, Some(Deposit.DenomError(msg.burnToken));
      }
      if IsPaused(burningAndMintingPaused) {
        return 0, Some(Deposit.BurnPausedError);
      }
      var limitKey := ToLower(msg.burnToken);
      if limitKey in perMessageBurnLimits && msg.amount > perMessageBurnLimits[limitKey] {
        return 0, Some(Deposit.BurnLimitError);
      }
      assert Deposit.DepositCheck(env, old(Store()), msg).None?;
      nonce, err := BurnAndSend(msg, fromAccAddress.value, tokenMessenger, destinationCaller);
    }

    /** The part of `depositForBurn` after its checks: the transfer, the burn,
        the burn message and the hand-off to the emitter. */
    method BurnAndSend(msg: Deposit.MsgDepositForBurn, fromAccAddress: Bytes,
                       tokenMessenger: RemoteTokenMessenger, destinationCaller: Bytes)
      returns (nonce: uint64, err: Option<Error>)
      requires Valid()
      requires fromAccAddress == Deposit.Depositor(env, msg)
      requires msg.destinationDomain in remoteTokenMessengers
      requires tokenMessenger == remoteTokenMessengers[msg.destinationDomain]
      modifies this`nextAvailableNonce, this`log
      ensures Valid()
      ensures var o := Deposit.BurnAndSend(env, old(Store()), msg, destinationCaller);
        && Store() == o.state && log == old(log) + o.effects
        && nonce == (if o.result.Ok? then o.result.value else 0)
        && err == (if o.result.Ok? then None else Some(o.result.error))
    {
      var coin := Coin(msg.burnToken, msg.amount);
      var transferErr := env.transfer(fromAccAddress, coin);
      if transferErr.Some? {
        return 0, Some(Wrap(transferErr.value, "error during transfer"));
      }
      ghost var s := Store();
      log := log + [TransferredToModule(fromAccAddress, coin)];
      assert Store() == s;
      nonce, err := BurnThenSend(msg, tokenMessenger, destinationCaller);
    }

    /** The burn from module custody, then the burn message. */
    method BurnThenSend(msg: Deposit.MsgDepositForBurn, tokenMessenger: RemoteTokenMessenger,
                        destinationCaller: Bytes)
      returns (nonce: uint64, err: Option<Error>)
      requires Valid()
      modifies this`nextAvailableNonce, this`log
      ensures Valid()
      ensures var o := Deposit.BurnThenSend(env, old(Store()), msg, tokenMessenger.address, destinationCaller);
        && Store() == o.state && log == old(log) + o.effects
        && nonce == (if o.result.Ok? then o.result.value else 0)
        && err == (if o.result.Ok? then None else Some(o.result.error))
    {
      var coin := Coin(msg.burnToken, msg.amount);
      var burnErr := env.burn(coin);
      if burnErr.Some? {
        return 0, Some(Wrap(burnErr.value, "error during burn"));
      }
      ghost var s := Store();
      log := log + [BurnedFromModule(coin)];
      assert Store() == s;
      nonce, err := EncodeAndSend(msg, tokenMessenger, destinationCaller);
    }

    /** The burn message, its encoding, and the hand-off to the emitter. */
    method EncodeAndSend(msg: Deposit.MsgDepositForBurn, tokenMessenger: RemoteTokenMessenger,
                         destinationCaller: Bytes)
      returns (nonce: uint64, err: Option<Error>)
      requires Valid()
      modifies this`nextAvailableNonce, this`log
      ensures Valid()
      ensures var o := Deposit.EncodeAndSend(env, old(Store()), msg, tokenMessenger.address, destinationCaller);
        && Store() == o.state && log == old(log) + o.effects
        && nonce == (if o.result.Ok? then o.result.value else 0)
        && err == (if o.result.Ok? then None else Some(o.result.error))
    {
      var burnMessage := Deposit.BurnMessageOf(env, msg);
      var newMessageBodyBytes := env.encode(burnMessage);
      if newMessageBodyBytes.None? {
        return 0, Some(Deposit.EncodeError);
      }
      nonce, err := SendBurnMessage(msg, tokenMessenger, newMessageBodyBytes.value, destinationCaller);
    }

    /** The hand-off to the emitter: plain `SendMessage` when no destination
        caller was given, `SendMessageWithCaller` otherwise, from the module
        account to the remote token messenger; then the deposit event. */
    method SendBurnMessage(msg: Deposit.MsgDepositForBurn, tokenMessenger: RemoteTokenMessenger,
                           body: Bytes, destinationCaller: Bytes)
      returns (nonce: uint64, err: Option<Error>)
      requires Valid()
      modifies this`nextAvailableNonce, this`log
      ensures Valid()
      ensures var o := Deposit.SendAndRecord(env, old(Store()), msg, tokenMessenger.address, body, destinationCaller);
        && Store() == o.state && log == old(log) + o.effects
        && nonce == (if o.result.Ok? then o.result.value else 0)
        && err == (if o.result.Ok? then None else Some(o.result.error))
    {
      var sent: Result<uint64>;
      if |destinationCaller| == 0 {
        sent := SendMessage(Send.MsgSendMessage(
          env.moduleAddress, msg.destinationDomain, tokenMessenger.address, body));
      } else {
        sent := SendMessageWithCaller(Send.MsgSendMessageWithCaller(
          env.moduleAddress, msg.destinationDomain, tokenMessenger.address, body, destinationCaller));
      }
      if sent.Err? {
        return 0, Some(sent.error);
      }
      nonce := sent.value;
      log := log + [Deposit.DepositEvent(env, msg, nonce, tokenMessenger.address, destinationCaller)];
      err := None;
    }

    method UnlinkTokenPair(msg: Admin.MsgUnlinkTokenPair) returns (err: Option<Error>)
      requires Valid()
      modifies this`tokenPairs, this`log
      ensures Valid()
      ensures var o := Admin.UnlinkTokenPair(old(Store()), msg);
        && Store() == o.state && log == old(log) + o.effects
        && err == (if o.result.Ok? then None else Some(o.result.error))
      ensures err.None? ==> tokenPairs == old(tokenPairs) - {(msg.remoteDomain, msg.remoteToken)}
      ensures err.Some? ==> tokenPairs == old(tokenPairs)
    {
      if tokenController != msg.from {
        return Some(Admin.UnlinkUnauthorizedError);
      }
      if |msg.remoteToken| != RemoteTokenNumBytes {
        return Some(Admin.RemoteTokenLengthError);
      }
      var key := (msg.remoteDomain, msg.remoteToken);
      if key !in tokenPairs {
        return Some(Admin.TokenPairMissingError);
      }
      var tokenPair := tokenPairs[key];
      tokenPairs := tokenPairs - {(msg.remoteDomain, tokenPair.remoteToken)};
      log := log + [TokenPairUnlinkedEvent(tokenPair.localToken, tokenPair.remoteDomain, msg.remoteToken)];
      err := None;
    }

    method UpdateAttesterManager(msg: Admin.MsgUpdateAttesterManager) returns (err: Option<Error>)
      requires Valid()
      modifies this`attesterManager, this`log
      ensures Valid()
      ensures var o := Admin.UpdateAttesterManager(env, old(Store()), msg);
        && Store() == o.state && log == old(log) + o.effects
        && err == (if o.result.Ok? then None else Some(o.result.error))
      ensures err.None? ==> attesterManager == msg.newAttesterManager
      ensures err.Some? ==> attesterManager == old(attesterManager)
    {
      if owner != msg.from {
        return Some(Admin.UpdateUnauthorizedError);
      }
      var parsed := env.parseAddress(msg.newAttesterManager);
      if parsed.None? {
        return Some(Admin.AttesterManagerAddressError);
      }
      var currentAttesterManager := attesterManager;
      attesterManager := msg.newAttesterManager;
      log := log + [AttesterManagerUpdatedEvent(currentAttesterManager, msg.newAttesterManager)];
      err := None;
    }
  }
}
