/** The message-emitter scenarios of the keeper's test suite, stated for
    every environment and state that matches each scenario's setup. */
module SendMessageWithCallerScenarios {
  import opened CctpTypes
  import opened KeeperState
  import opened Guards
  import opened SendMessageSpec

  /** The bytes of "12345678901234567890123456789012". */
  function Digits32(): (b: Bytes)
    ensures |b| == 32 && IsNonZero(b)
  {
    var d := seq(32, i => 48 + (i + 1) % 10);
    assert d[0] != Zeros(32)[0];
    d
  }

  /** The scenario's message: domain 3, the 32 digits as recipient and as
      destination caller, and a 50-byte body. */
  function ScenarioMessage(from: string, caller: Bytes, recipient: Bytes): MsgSendMessageWithCaller {
    MsgSendMessageWithCaller(from, 3, recipient, seq(50, i => 0x61), caller)
  }

  /** Stored nonce 5, not paused, no maximum body size: nonce 5 is returned
      and 6 is stored. */
  lemma HappyPath(env: Env, s: State, from: string)
    requires env.parseAddress(from).Some?
    requires s.sendingAndReceivingMessagesPaused == Some(false) && s.nextAvailableNonce == 5
    requires s.maxMessageBodySize.None?
    ensures var o := SendMessageWithCaller(env, s, ScenarioMessage(from, Digits32(), Digits32()));
      o.result == Ok(5) && o.state.nextAvailableNonce == 6
  {
    var msg := ScenarioMessage(from, Digits32(), Digits32());
    assert AllHold(SendMessageWithCallerGuards(env, s, msg));
  }

  /** A missing destination caller is refused as a send-message error. */
  lemma MissingDestinationCaller(env: Env, s: State, from: string)
    requires env.parseAddress(from).Some?
    ensures var o := SendMessageWithCaller(env, s, ScenarioMessage(from, [], Digits32()));
      o.result == Err(DestinationCallerError) && o.result.error.kind == ErrSendMessage && o.state == s
  {
    FirstFailureAt(SendMessageWithCallerGuards(env, s, ScenarioMessage(from, [], Digits32())), 1);
  }

  /** A malformed sender is reported before the missing destination caller. */
  lemma InvalidFromBeforeMissingCaller(env: Env, s: State, from: string)
    requires env.parseAddress(from).None?
    ensures var o := SendMessageWithCaller(env, s, ScenarioMessage(from, [], Digits32()));
      o.result == Err(InvalidFromError) && o.result.error.kind == ErrInvalidAddress && o.state == s
  {
    FirstFailureAt(SendMessageWithCallerGuards(env, s, ScenarioMessage(from, [], Digits32())), 0);
  }

  /** While sending and receiving is paused, the call fails and no nonce is
      allocated. */
  lemma Paused(env: Env, s: State, from: string)
    requires env.parseAddress(from).Some?
    requires s.sendingAndReceivingMessagesPaused == Some(true)
    ensures var o := SendMessageWithCaller(env, s, ScenarioMessage(from, Digits32(), Digits32()));
      o.result == Err(PausedError) && o.state.nextAvailableNonce == s.nextAvailableNonce
  {
    FirstFailureAt(SendMessageWithCallerGuards(env, s, ScenarioMessage(from, Digits32(), Digits32())), 2);
  }

  /** The 32-byte zero word is not a recipient. */
  lemma ZeroRecipient(env: Env, s: State, from: string)
    requires env.parseAddress(from).Some?
    requires s.sendingAndReceivingMessagesPaused == Some(false)
    ensures var o := SendMessageWithCaller(env, s, ScenarioMessage(from, Digits32(), Zeros(MintRecipientLen)));
      o.result == Err(RecipientError) && o.state == s
  {
    FirstFailureAt(SendMessageWithCallerGuards(env, s, ScenarioMessage(from, Digits32(), Zeros(MintRecipientLen))), 3);
  }

  /** A 50-byte body against a maximum of 5 is refused, nonce unchanged. */
  lemma BodyTooLong(env: Env, s: State, from: string)
    requires env.parseAddress(from).Some?
    requires s.sendingAndReceivingMessagesPaused == Some(false) && s.maxMessageBodySize == Some(5)
    ensures var o := SendMessageWithCaller(env, s, ScenarioMessage(from, Digits32(), Digits32()));
      o.result == Err(BodyTooLongError) && o.state == s
  {
    FirstFailureAt(SendMessageWithCallerGuards(env, s, ScenarioMessage(from, Digits32(), Digits32())), 4);
  }

  /** The size bound is inclusive: a body of exactly the maximum is sent, one
      byte more is not. */
  lemma BodySizeBoundary(env: Env, s: State, msg: MsgSendMessageWithCaller)
    requires env.parseAddress(msg.from).Some? && IsNonZero(msg.destinationCaller)
    requires !IsPaused(s.sendingAndReceivingMessagesPaused) && IsNonZero(msg.recipient)
    requires s.maxMessageBodySize.Some?
    ensures |msg.messageBody| == s.maxMessageBodySize.value ==>
      SendMessageWithCaller(env, s, msg).result == Ok(s.nextAvailableNonce)
    ensures |msg.messageBody| == s.maxMessageBodySize.value + 1 ==>
      SendMessageWithCaller(env, s, msg).result == Err(BodyTooLongError)
  {
    var gs := SendMessageWithCallerGuards(env, s, msg);
    if |msg.messageBody| == s.maxMessageBodySize.value + 1 {
      FirstFailureAt(gs, 4);
    } else if |msg.messageBody| == s.maxMessageBodySize.value {
      assert AllHold(gs);
    }
  }
}
