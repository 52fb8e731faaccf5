/** The two role-gated administrative operations of the model. Each checks
    the caller's role first, then validates, then makes one change to the
    store and records one event. */
module AdminSpec {
  import opened CctpTypes
  import opened KeeperState
  import opened Guards

  datatype MsgUnlinkTokenPair = MsgUnlinkTokenPair(from: string, remoteDomain: uint32, remoteToken: Bytes)

  datatype MsgUpdateAttesterManager = MsgUpdateAttesterManager(from: string, newAttesterManager: string)

  const UnlinkUnauthorizedError := Error(ErrUnauthorized, "this message sender cannot unlink token pairs")
  const RemoteTokenLengthError := Error(ErrInvalidRemoteToken, "must be a byte32 array")
  const TokenPairMissingError := Error(ErrTokenPairNotFound, "token pair doesn't exist in store")
  const UpdateUnauthorizedError := Error(ErrUnauthorized, "this message sender cannot update the attester manager")
  const AttesterManagerAddressError := Error(ErrInvalidAddress, "invalid attester manager address")

  /** Role checks are exact equality with the stored role holder. */
  predicate Authorized(roleHolder: string, caller: string) {
    roleHolder == caller
  }

  function UnlinkGuards(s: State, msg: MsgUnlinkTokenPair): seq<Guard> {
    [ Guard(Authorized(s.tokenController, msg.from), UnlinkUnauthorizedError),
      Guard(|msg.remoteToken| == RemoteTokenNumBytes, RemoteTokenLengthError),
      Guard((msg.remoteDomain, msg.remoteToken) in s.tokenPairs, TokenPairMissingError) ]
  }

  function UpdateAttesterManagerGuards(env: Env, s: State, msg: MsgUpdateAttesterManager): seq<Guard> {
    [ Guard(Authorized(s.owner, msg.from), UpdateUnauthorizedError),
      Guard(env.parseAddress(msg.newAttesterManager).Some?, AttesterManagerAddressError) ]
  }

  /** `UnlinkTokenPair`: the token controller removes one token pair. The
      entry is deleted under the stored pair's own remote token; the event
      carries the stored pair's local token and remote domain and the
      requested remote token. */
  function UnlinkTokenPair(s: State, msg: MsgUnlinkTokenPair): (o: Outcome<()>)
    ensures match FirstFailure(UnlinkGuards(s, msg))
      case Some(e) => o == Outcome(s, [], Err(e))
      case None =>
        assert UnlinkGuards(s, msg)[2].holds;
        var pair := s.tokenPairs[(msg.remoteDomain, msg.remoteToken)];
        && o.result == Ok(())
        && o.effects == [TokenPairUnlinkedEvent(pair.localToken, pair.remoteDomain, msg.remoteToken)]
        && o.state == s.(tokenPairs := o.state.tokenPairs)
        // with a consistent store, exactly the requested key is removed
        && (Valid(s) ==>
              && o.state.tokenPairs.Keys == s.tokenPairs.Keys - {(msg.remoteDomain, msg.remoteToken)}
              && (forall k :: k in o.state.tokenPairs ==> o.state.tokenPairs[k] == s.tokenPairs[k])
              && Valid(o.state))
  {
    var gs := UnlinkGuards(s, msg);
    if !Authorized(s.tokenController, msg.from) then
      FirstFailureAt(gs, 0);
      Fail(s, UnlinkUnauthorizedError)
    else if |msg.remoteToken| != RemoteTokenNumBytes then
      FirstFailureAt(gs, 1);
      Fail(s, RemoteTokenLengthError)
    else if (msg.remoteDomain, msg.remoteToken) !in s.tokenPairs then
      FirstFailureAt(gs, 2);
      Fail(s, TokenPairMissingError)
    else
      assert AllHold(gs);
      var tokenPair := s.tokenPairs[(msg.remoteDomain, msg.remoteToken)];
      var event := TokenPairUnlinkedEvent(tokenPair.localToken, tokenPair.remoteDomain, msg.remoteToken);
      Outcome(s.(tokenPairs := s.tokenPairs - {(msg.remoteDomain, tokenPair.remoteToken)}), [event], Ok(()))
  }

  /** `UpdateAttesterManager`: the owner replaces the attester manager. The
      event records the value read before the write and the new one. */
  function UpdateAttesterManager(env: Env, s: State, msg: MsgUpdateAttesterManager): (o: Outcome<()>)
    ensures match FirstFailure(UpdateAttesterManagerGuards(env, s, msg))
      case Some(e) => o == Outcome(s, [], Err(e))
      case None =>
        && o.result == Ok(())
        && o.state.attesterManager == msg.newAttesterManager
        && o.state == s.(attesterManager := o.state.attesterManager)
        && o.effects == [AttesterManagerUpdatedEvent(s.attesterManager, msg.newAttesterManager)]
  {
    var gs := UpdateAttesterManagerGuards(env, s, msg);
    if !Authorized(s.owner, msg.from) then
      FirstFailureAt(gs, 0);
      Fail(s, UpdateUnauthorizedError)
    else if env.parseAddress(msg.newAttesterManager).None? then
      FirstFailureAt(gs, 1);
      Fail(s, AttesterManagerAddressError)
    else
      assert AllHold(gs);
      var currentAttesterManager := s.attesterManager;
      var event := AttesterManagerUpdatedEvent(currentAttesterManager, msg.newAttesterManager);
      Outcome(s.(attesterManager := msg.newAttesterManager), [event], Ok(()))
  }

  /** Repeating an attester-manager update changes nothing further: the
      second call is authorized again (the owner is untouched), succeeds,
      and leaves the state the first call left. */
  lemma UpdateAttesterManagerIdempotent(env: Env, s: State, msg: MsgUpdateAttesterManager)
    ensures var once := UpdateAttesterManager(env, s, msg);
      var twice := UpdateAttesterManager(env, once.state, msg);
      twice.state == once.state && twice.result == once.result
  {
    var once := UpdateAttesterManager(env, s, msg);
    assert UpdateAttesterManagerGuards(env, once.state, msg) == UpdateAttesterManagerGuards(env, s, msg);
  }

  /** An unauthorized caller learns nothing: whatever the token pairs hold and
      whatever it asks for, the answer is the same Unauthorized error. */
  lemma UnlinkUnauthorizedRevealsNothing(s: State, t: State, msg: MsgUnlinkTokenPair, msg': MsgUnlinkTokenPair)
    requires s.tokenController == t.tokenController && msg.from == msg'.from
    requires !Authorized(s.tokenController, msg.from)
    ensures UnlinkTokenPair(s, msg).result == UnlinkTokenPair(t, msg').result
    ensures UnlinkTokenPair(s, msg).state == s
  {
    FirstFailureAt(UnlinkGuards(s, msg), 0);
    FirstFailureAt(UnlinkGuards(t, msg'), 0);
  }
}
