/** The message emitter: `SendMessage` and `SendMessageWithCaller` as state
    transitions. Both validate, then allocate the stored next nonce, store
    its successor and emit the envelope under the allocated nonce. */
module SendMessageSpec {
  import opened CctpTypes
  import opened KeeperState
  import opened Guards

  datatype MsgSendMessage = MsgSendMessage(
    from: string,
    destinationDomain: uint32,
    recipient: Bytes,
    messageBody: Bytes)

  datatype MsgSendMessageWithCaller = MsgSendMessageWithCaller(
    from: string,
    destinationDomain: uint32,
    recipient: Bytes,
    messageBody: Bytes,
    destinationCaller: Bytes)

  const InvalidFromError := Error(ErrInvalidAddress, "invalid from address")
  const DestinationCallerError := Error(ErrSendMessage, "destination caller must be nonzero")
  const PausedError := Error(ErrSendMessage, "sending and receiving messages is paused")
  const RecipientError := Error(ErrSendMessage, "recipient must not be nonzero")
  const BodyTooLongError := Error(ErrSendMessage, "message body exceeds max size")

  /** A maximum body size that was never stored imposes no bound. */
  predicate WithinMaxBodySize(s: State, body: Bytes) {
    s.maxMessageBodySize.None? || |body| <= s.maxMessageBodySize.value
  }

  /** The checks both entry points share, in order, behind their own first
      checks. */
  function EmitGuards(s: State, recipient: Bytes, body: Bytes): seq<Guard> {
    [ Guard(!IsPaused(s.sendingAndReceivingMessagesPaused), PausedError),
      Guard(IsNonZero(recipient), RecipientError),
      Guard(WithinMaxBodySize(s, body), BodyTooLongError) ]
  }

  function SendMessageGuards(env: Env, s: State, msg: MsgSendMessage): seq<Guard> {
    [Guard(env.parseAddress(msg.from).Some?, InvalidFromError)]
      + EmitGuards(s, msg.recipient, msg.messageBody)
  }

  function SendMessageWithCallerGuards(env: Env, s: State, msg: MsgSendMessageWithCaller): seq<Guard> {
    [ Guard(env.parseAddress(msg.from).Some?, InvalidFromError),
      Guard(IsNonZero(msg.destinationCaller), DestinationCallerError) ]
      + EmitGuards(s, msg.recipient, msg.messageBody)
  }

  /** The outcome a guard table promises: the first failing guard's error and
      no change, or the stored nonce allocated, its successor stored and one
      envelope emitted under it. */
  ghost predicate Emits(s: State, guards: seq<Guard>, o: Outcome<uint64>, env: Envelope) {
    match FirstFailure(guards)
    case Some(e) => o == Outcome(s, [], Err(e))
    case None =>
      && o.result == Ok(s.nextAvailableNonce)
      && o.state == s.(nextAvailableNonce := NextNonce(s.nextAvailableNonce))
      && o.effects == [MessageSent(env)]
      && env.nonce == s.nextAvailableNonce
  }

  /** Checks 3-5 and the nonce allocation, after the entry point's own
      checks have passed. */
  function Emit(s: State, sender: Bytes, msg: MsgSendMessageWithCaller): (o: Outcome<uint64>)
    ensures Emits(s, EmitGuards(s, msg.recipient, msg.messageBody), o,
                  Envelope(s.nextAvailableNonce, SenderWord(sender), msg.destinationDomain,
                           msg.recipient, msg.destinationCaller, msg.messageBody))
  {
    var gs := EmitGuards(s, msg.recipient, msg.messageBody);
    if IsPaused(s.sendingAndReceivingMessagesPaused) then
      FirstFailureAt(gs, 0);
      Fail(s, PausedError)
    else if !IsNonZero(msg.recipient) then
      FirstFailureAt(gs, 1);
      Fail(s, RecipientError)
    else if !WithinMaxBodySize(s, msg.messageBody) then
      FirstFailureAt(gs, 2);
      Fail(s, BodyTooLongError)
    else
      var n := s.nextAvailableNonce;
      var envelope := Envelope(n, SenderWord(sender), msg.destinationDomain,
                               msg.recipient, msg.destinationCaller, msg.messageBody);
      Outcome(s.(nextAvailableNonce := NextNonce(n)), [MessageSent(envelope)], Ok(n))
  }

  /** The envelope emitted for `msg` under nonce `n`. */
  function EnvelopeFor(env: Env, n: uint64, from: string, domain: uint32, recipient: Bytes,
                       caller: Bytes, body: Bytes): Envelope
  {
    var sender := env.parseAddress(from);
    Envelope(n, SenderWord(if sender.Some? then sender.value else []), domain, recipient, caller, body)
  }

  /** Plain `SendMessage`: no destination caller, so any address may deliver
      the message on the destination domain. */
  function SendMessage(env: Env, s: State, msg: MsgSendMessage): (o: Outcome<uint64>)
    ensures Emits(s, SendMessageGuards(env, s, msg), o,
                  EnvelopeFor(env, s.nextAvailableNonce, msg.from, msg.destinationDomain,
                              msg.recipient, [], msg.messageBody))
  {
    var gs := SendMessageGuards(env, s, msg);
    var sender := env.parseAddress(msg.from);
    if sender.None? then
      FirstFailureAt(gs, 0);
      Fail(s, InvalidFromError)
    else
      FirstFailureAfterPassing(gs[..1], gs[1..]);
      assert gs == gs[..1] + gs[1..];
      Emit(s, sender.value,
           MsgSendMessageWithCaller(msg.from, msg.destinationDomain, msg.recipient, msg.messageBody, []))
  }

  /** `SendMessageWithCaller`: as `SendMessage`, but only the given
      destination caller may deliver the message, so it must be set. */
  function SendMessageWithCaller(env: Env, s: State, msg: MsgSendMessageWithCaller): (o: Outcome<uint64>)
    ensures Emits(s, SendMessageWithCallerGuards(env, s, msg), o,
                  EnvelopeFor(env, s.nextAvailableNonce, msg.from, msg.destinationDomain,
                              msg.recipient, msg.destinationCaller, msg.messageBody))
  {
    var gs := SendMessageWithCallerGuards(env, s, msg);
    var sender := env.parseAddress(msg.from);
    if sender.None? then
      FirstFailureAt(gs, 0);
      Fail(s, InvalidFromError)
    else if !IsNonZero(msg.destinationCaller) then
      FirstFailureAt(gs, 1);
      Fail(s, DestinationCallerError)
    else
      FirstFailureAfterPassing(gs[..2], gs[2..]);
      assert gs == gs[..2] + gs[2..];
      Emit(s, sender.value, msg)
  }
}
