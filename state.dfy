/** The keeper's persistent state as one value, and the shape of a state
    transition: the new state, the effects performed outside the store, and
    the result returned to the caller. */
module KeeperState {
  import opened CctpTypes

  datatype State = State(
    nextAvailableNonce: uint64,
    sendingAndReceivingMessagesPaused: Option<bool>,
    burningAndMintingPaused: Option<bool>,
    maxMessageBodySize: Option<uint64>,
    perMessageBurnLimits: map<string, int>,
    remoteTokenMessengers: map<uint32, RemoteTokenMessenger>,
    tokenPairs: map<TokenPairKey, TokenPair>,
    owner: string,
    attesterManager: string,
    tokenController: string)

  datatype Outcome<T> = Outcome(state: State, effects: seq<Effect>, result: Result<T>)

  /** Each token pair is stored under its own remote domain and remote token. */
  ghost predicate PairsKeyed(pairs: map<TokenPairKey, TokenPair>) {
    forall key :: key in pairs ==> pairs[key].remoteDomain == key.0 && pairs[key].remoteToken == key.1
  }

  ghost predicate Valid(s: State) {
    PairsKeyed(s.tokenPairs)
  }

  /** A pause flag that was never stored reads as its zero value: not paused. */
  predicate IsPaused(flag: Option<bool>) {
    flag == Some(true)
  }

  /** The nonce stored after `n` is allocated: uint64 addition, which wraps. */
  function NextNonce(n: uint64): (m: uint64)
    ensures n < UINT64_MAX ==> m == n + 1
    ensures n == UINT64_MAX ==> m == 0
  {
    (n + 1) % 0x1_0000_0000_0000_0000
  }

  /** Failing transitions leave the store as it was and do nothing outside it. */
  function Fail<T>(s: State, e: Error): Outcome<T> {
    Outcome(s, [], Err(e))
  }
}
