# CCTP keeper on Noble: burn, message emission and two admin operations

This project models the message-server core of the Noble CCTP module, which is
Circle's Cross-Chain Transfer Protocol on a Cosmos SDK chain:

- `depositForBurn` runs seven fail-fast checks in order: the sender address,
  a positive amount, a set mint recipient, a registered remote token
  messenger, the minting denomination, the burn pause flag and the
  per-message burn limit. It then moves the coin into module custody, burns
  it, builds the burn message and hands it to the message emitter. The
  emitter allocates the next nonce, and `depositForBurn` returns that nonce.
- `DepositForBurn` is the message-server entry point. It calls
  `depositForBurn` with an empty destination caller.
- `SendMessage` and `SendMessageWithCaller` are the two emitter entry
  points. Each validates the request, hands out the stored nonce, stores its
  successor and emits the envelope.
- `UnlinkTokenPair` lets the token controller remove a token pair.
- `UpdateAttesterManager` lets the owner replace the attester manager.

The model has two layers:

- **Pure specifications.** Each operation is a function from a store value
  (`KeeperState.State`) to an `Outcome`. An outcome holds the new store, the
  effects emitted in order and the result. Effects are transfers, burns,
  sent envelopes and events.
- **Imperative keeper.** `CctpKeeper.Keeper` is a class whose fields are
  the store. Its methods overwrite those fields in place and append to a
  ghost effect log. Each method is proved to perform exactly the transition
  its specification function describes.

Every chain of checks is also written as a table of guards. `Guards.FirstFailure`
picks the error of the first failing guard and is the independent reference
for "the first failing check wins". Each hand-written `if` chain is proved
equal to it.

The model keeps these details of the code:

- Go's nil and empty byte slices are different values.
- The nonce is a `uint64` and wraps around.
- Go's `copy` builds the 32-byte message sender: at most 20 bytes of the
  account, placed after 12 zero bytes.
- Burn limits are looked up under the lower-cased denomination, and the
  limit itself may be burnt.
- The burn message hashes the lower-cased denomination, but the deposit
  event hashes the denomination exactly as given.
- The token pair is deleted under the stored pair's own remote token.

The parts that live outside this core are parameters of an `Env` value:

- the bech32 address parser,
- the bank transfer into the module,
- the fiat-token-factory burn and its minting denomination,
- the burn-message encoder,
- Keccak-256,
- the module account address.

Each of them is a total function. A refusal from one of them comes back as an
error value.

The implementation of `SendMessage` and `SendMessageWithCaller` is not part
of this model. `SendMessageWithCaller` is modelled after its test file,
`msg_server_send_message_with_caller_test.go`. The tests fix these facts:

- the error kinds and messages;
- that the stored nonce is returned and its successor stored;
- that a store with no maximum body size accepts a 50-byte body;
- that an invalid sender is reported before a missing destination caller.

The rest of the emitter is an assumption of this model, not something the
tests fix:

- after the sender and the destination caller come the pause flag, the
  recipient and the body size, in that order;
- plain `SendMessage`, which the tests never call, runs the same checks
  without the destination-caller check;
- a recipient or destination caller is refused only when it is empty or is
  the 32-byte zero word. This follows the pattern of the mint-recipient
  check in `depositForBurn`.

## Model

| member | source | states |
|---|---|---|
| `Guards.FirstFailure` | noble-cctp-master/x/cctp/keeper/msg_server_deposit_for_burn.go:60-98 | The result is None exactly when every guard holds. |
| `Guards.FirstFailureIsFirst` | noble-cctp-master/x/cctp/keeper/msg_server_deposit_for_burn.go:60-98 | A reported error is that of a failing guard all of whose predecessors hold, so fail-fast checks report the first failure. |
| `Guards.FirstFailureAt` | noble-cctp-master/x/cctp/keeper/msg_server_deposit_for_burn.go:60-98 | If the checks before position k pass and check k fails, check k's error is the outcome, whatever the later checks say. |
| `Guards.FirstFailureAfterPassing` | noble-cctp-master/x/cctp/keeper/msg_server_deposit_for_burn.go:60-98 | Checks that pass in front of a chain do not change its outcome. |
| `Guards.FirstFailureOfPrefix` | noble-cctp-master/x/cctp/keeper/msg_server_deposit_for_burn.go:60-98 | Checks that pass at the end of a chain do not change its outcome. |
| `CctpTypes.Wrap` | noble-cctp-master/x/cctp/keeper/msg_server_deposit_for_burn.go:103-115 | Wrapping a collaborator's error keeps its kind, lengthens the reason, and keeps the original reason as its tail. |
| `CctpTypes.ToLower` | noble-cctp-master/x/cctp/keeper/msg_server_deposit_for_burn.go:93 | Lower-casing keeps the length and maps every character through ASCII lower-casing. |
| `CctpTypes.SenderWord` | noble-cctp-master/x/cctp/keeper/msg_server_deposit_for_burn.go:117-118 | The sender word is 32 bytes: 12 zero bytes, then the first min(20, length) bytes of the account, then zeros. |
| `CctpTypes.Zeros` | noble-cctp-master/x/cctp/keeper/msg_server_deposit_for_burn.go:70-71 | The zero word has the requested length and only zero bytes. |
| `KeeperState.NextNonce` | noble-cctp-master/x/cctp/keeper/msg_server_send_message_with_caller_test.go:59-63 | The successor of a stored nonce is one more below the uint64 maximum and wraps to 0 at the maximum. |
| `SendMessageSpec.Emit` | noble-cctp-master/x/cctp/keeper/msg_server_send_message_with_caller_test.go:114-185 | Emission fails on the first failing check among pause flag, recipient and body size, and then changes nothing. Otherwise it returns the stored nonce, stores its successor and emits one envelope under that nonce. |
| `SendMessageSpec.SendMessage` | noble-cctp-master/x/cctp/keeper/msg_server_deposit_for_burn.go:135-147 | The outcome is the first failure of the sender check followed by the emitter checks. Otherwise it is the allocation of the stored nonce with one envelope whose destination caller is empty. |
| `SendMessageSpec.SendMessageWithCaller` | noble-cctp-master/x/cctp/keeper/msg_server_send_message_with_caller_test.go:37-185 | The same as `SendMessage`, with the non-zero destination-caller check second. The envelope carries the caller. |
| `SendMessageWithCallerScenarios.HappyPath` | noble-cctp-master/x/cctp/keeper/msg_server_send_message_with_caller_test.go:37-64 | With stored nonce 5, no pause and no maximum body size, the 50-byte message is sent. Nonce 5 is returned and nonce 6 is stored. |
| `SendMessageWithCallerScenarios.MissingDestinationCaller` | noble-cctp-master/x/cctp/keeper/msg_server_send_message_with_caller_test.go:66-88 | A missing destination caller gives the send-message error "destination caller must be nonzero" and changes nothing. |
| `SendMessageWithCallerScenarios.InvalidFromBeforeMissingCaller` | noble-cctp-master/x/cctp/keeper/msg_server_send_message_with_caller_test.go:90-112 | An unparsable sender gives the invalid-address error "invalid from address", even though the caller is also missing. |
| `SendMessageWithCallerScenarios.Paused` | noble-cctp-master/x/cctp/keeper/msg_server_send_message_with_caller_test.go:114-132 | While sending is paused the call fails with "sending and receiving messages is paused" and allocates no nonce. |
| `SendMessageWithCallerScenarios.ZeroRecipient` | noble-cctp-master/x/cctp/keeper/msg_server_send_message_with_caller_test.go:134-157 | A recipient of 32 zero bytes gives "recipient must not be nonzero" and changes nothing. |
| `SendMessageWithCallerScenarios.BodyTooLong` | noble-cctp-master/x/cctp/keeper/msg_server_send_message_with_caller_test.go:159-185 | A 50-byte body against a maximum of 5 gives "message body exceeds max size" and changes nothing. |
| `SendMessageWithCallerScenarios.BodySizeBoundary` | noble-cctp-master/x/cctp/keeper/msg_server_send_message_with_caller_test.go:159-185 | The maximum body size is inclusive, since only a body that exceeds it is refused: a body of exactly the maximum is sent, and one byte more is refused. |
| `DepositForBurnSpec.DepositCheck` | noble-cctp-master/x/cctp/keeper/msg_server_deposit_for_burn.go:60-98 | The seven checks run in source order, and their result is the first failing check's error. Only a nil or all-zero mint recipient is refused, the denomination compares ignoring case, and an unset pause flag is not paused. |
| `DepositForBurnSpec.BurnMessageOf` | noble-cctp-master/x/cctp/keeper/msg_server_deposit_for_burn.go:117-126 | The burn message has version `MessageBodyVersion`, the Keccak hash of the lower-cased denomination, the request's mint recipient and amount, and a 32-byte sender. For a 20-byte account the sender is 12 zero bytes followed by the account. |
| `DepositForBurnSpec.SenderWordOfAccount` | noble-cctp-master/x/cctp/keeper/msg_server_deposit_for_burn.go:117-118 | A 20-byte account lands whole after 12 zero bytes. |
| `DepositForBurnSpec.SenderWordInjective` | noble-cctp-master/x/cctp/keeper/msg_server_deposit_for_burn.go:117-118 | Distinct 20-byte accounts give distinct sender words. |
| `DepositForBurnSpec.SenderWordTruncates` | noble-cctp-master/x/cctp/keeper/msg_server_deposit_for_burn.go:117-118 | An account longer than 20 bytes gives the same sender word as its first 20 bytes. |
| `DepositForBurnSpec.BurnAndSend` | noble-cctp-master/x/cctp/keeper/msg_server_deposit_for_burn.go:100-176 | A refused transfer leaves no effect. A refused burn leaves the transfer. A failed encoding leaves the transfer and the burn, and nothing is rolled back. Otherwise the emitter's result is returned unchanged, and the deposit event follows only a successful send. |
| `DepositForBurnSpec.DepositForBurnWithCaller` | noble-cctp-master/x/cctp/keeper/msg_server_deposit_for_burn.go:51-177 | A failing check decides the error with no state change and no effect. Success implies every check and collaborator passed; the returned nonce is the stored one, and only the nonce changes, to its successor. Any error leaves the store unchanged. |
| `DepositForBurnSpec.DepositForBurnUsesSendMessage` | noble-cctp-master/x/cctp/keeper/msg_server_deposit_for_burn.go:34-49 | `DepositForBurn` returns exactly what plain `SendMessage` of the burn message from the module account returns. Every message it sends has an empty destination caller. |
| `DepositForBurnSpec.BurnLimitDecides` | noble-cctp-master/x/cctp/keeper/msg_server_deposit_for_burn.go:92-98 | Once the earlier checks pass, the request is refused with the burn-limit error exactly when a limit is stored under the lower-cased denomination and the amount exceeds it. It passes the checks exactly otherwise. |
| `DepositForBurnSpec.UnsetBurnPauseIsUnpaused` | noble-cctp-master/x/cctp/keeper/msg_server_deposit_for_burn.go:86-90 | For any destination caller, an unset burn pause flag gives the same result and effects as an explicit "not paused", and the same store apart from the flag itself. |
| `DepositForBurnSpec.DelegateIgnoresBurnPause` | noble-cctp-master/x/cctp/keeper/msg_server_deposit_for_burn.go:135-162 | Neither emitter entry point reads the burn pause flag: unset and "not paused" give the same result, effects and store apart from the flag. |
| `DepositForBurnSpec.SendAndRecordWithoutCaller` | noble-cctp-master/x/cctp/keeper/msg_server_deposit_for_burn.go:135-147 | Without a destination caller the hand-off returns what plain `SendMessage` returns, and no message it records carries a destination caller. |
| `DepositForBurnSpec.DepositIgnoresDenomCase` | noble-cctp-master/x/cctp/keeper/msg_server_deposit_for_burn.go:80-98 | Two spellings of a denomination that differ only in ASCII case pass the same checks and give the same burn message. |
| `AdminSpec.UnlinkTokenPair` | noble-cctp-master/x/cctp/keeper/msg_server_unlink_token_pair.go:28-54 | Checks run in order: role, then 32-byte remote token, then existence; the first failure changes nothing. On success only the token pairs change. The event carries the stored pair's local token and domain and the requested remote token. In a consistent store exactly the requested key is removed, the other entries are kept and the store stays consistent. |
| `AdminSpec.UnlinkUnauthorizedRevealsNothing` | noble-cctp-master/x/cctp/keeper/msg_server_unlink_token_pair.go:31-34 | A caller other than the token controller gets the same unauthorized answer whatever the store holds and whatever it asks for. |
| `AdminSpec.UpdateAttesterManager` | noble-cctp-master/x/cctp/keeper/msg_server_update_attester_manager.go:28-51 | Checks run in order: owner, then a parsable address; the first failure changes nothing. On success only the attester manager changes, to the new one. The event pairs the previous value with the new one. |
| `AdminSpec.UpdateAttesterManagerIdempotent` | noble-cctp-master/x/cctp/keeper/msg_server_update_attester_manager.go:41-42 | Repeating an update gives the same result and leaves the state the first update left. |
| `NonceSpace.Apply` | noble-cctp-master/x/cctp/keeper/msg_server_deposit_for_burn.go:135-162 | Every request obeys the nonce law: one that allocates a nonce takes the stored one and stores its successor, and every other request, including the admin operations, leaves the nonce alone. |
| `NonceSpace.KeeperStepObeysNonceLaw` | noble-cctp-master/x/cctp/keeper/msg_server_deposit_for_burn.go:135-162 | The keeper's step obeys the nonce law for every store and every request. |
| `NonceLedger.RunWithAllocatesConsecutively` | noble-cctp-master/x/cctp/keeper/msg_server_deposit_for_burn.go:135-162 | For any step that obeys the nonce law, a run allocates consecutive nonces modulo 2^64 from the stored one. The final stored nonce is the next in line. |
| `NonceSpace.RunAllocatesConsecutively` | noble-cctp-master/x/cctp/keeper/msg_server_deposit_for_burn.go:135-162 | Any interleaving of sends, deposits, unlinks and attester-manager updates allocates consecutive nonces modulo 2^64. |
| `NonceLedger.AllocatesAfterOne` | noble-cctp-master/x/cctp/keeper/msg_server_send_message_with_caller_test.go:59-63 | Allocating the stored nonce in front of a run that starts at its successor gives a run that starts at the stored nonce. |
| `NonceSpace.RunNeverRepeatsNonce` | noble-cctp-master/x/cctp/keeper/msg_server_send_message_with_caller_test.go:59-63 | Without wrap-around, the k-th allocated nonce of a run is the stored nonce plus k, so no nonce is handed out twice. |
| `CctpKeeper.Keeper.ReserveAndIncrementNonce` | noble-cctp-master/x/cctp/keeper/msg_server_send_message_with_caller_test.go:59-63 | Returns the stored nonce, stores its successor and changes nothing else. |
| `CctpKeeper.Keeper.Emit` | noble-cctp-master/x/cctp/keeper/msg_server_send_message_with_caller_test.go:114-185 | The in-place emitter performs `SendMessageSpec.Emit` on the fields and appends its effects to the log. |
| `CctpKeeper.Keeper.SendMessage` | noble-cctp-master/x/cctp/keeper/msg_server_deposit_for_burn.go:135-147 | Performs `SendMessageSpec.SendMessage` in place. On success it returns the old nonce and stores its successor; an error changes nothing. |
| `CctpKeeper.Keeper.SendMessageWithCaller` | noble-cctp-master/x/cctp/keeper/msg_server_send_message_with_caller_test.go:37-185 | Performs `SendMessageSpec.SendMessageWithCaller` in place. On success it returns the old nonce and stores its successor; an error changes nothing. |
| `CctpKeeper.Keeper.DepositForBurn` | noble-cctp-master/x/cctp/keeper/msg_server_deposit_for_burn.go:34-49 | Performs `DepositForBurnSpec.DepositForBurn` in place. The nonce is 0 whenever an error is returned. |
| `CctpKeeper.Keeper.DepositForBurnWithCaller` | noble-cctp-master/x/cctp/keeper/msg_server_deposit_for_burn.go:51-177 | Performs `DepositForBurnSpec.DepositForBurnWithCaller` in place. An error returns nonce 0 with the store unchanged. Success returns the old nonce and stores its successor. |
| `CctpKeeper.Keeper.BurnAndSend` | noble-cctp-master/x/cctp/keeper/msg_server_deposit_for_burn.go:100-106 | Performs `DepositForBurnSpec.BurnAndSend` in place. A refused transfer returns nonce 0 and changes nothing; otherwise the transfer goes to the log before the burn. |
| `CctpKeeper.Keeper.BurnThenSend` | noble-cctp-master/x/cctp/keeper/msg_server_deposit_for_burn.go:108-115 | Performs `DepositForBurnSpec.BurnThenSend` in place. A refused burn returns nonce 0 and changes nothing; otherwise the burn goes to the log before the message. |
| `CctpKeeper.Keeper.EncodeAndSend` | noble-cctp-master/x/cctp/keeper/msg_server_deposit_for_burn.go:117-133 | Performs `DepositForBurnSpec.EncodeAndSend` in place. A burn message that does not encode gives the parsing error with nonce 0 and no change. |
| `CctpKeeper.Keeper.SendBurnMessage` | noble-cctp-master/x/cctp/keeper/msg_server_deposit_for_burn.go:135-176 | Performs `DepositForBurnSpec.SendAndRecord` in place: plain `SendMessage` exactly when the destination caller is empty, `SendMessageWithCaller` otherwise. Their outcome is taken over, and the deposit event is logged only after a successful send. |
| `CctpKeeper.Keeper.UnlinkTokenPair` | noble-cctp-master/x/cctp/keeper/msg_server_unlink_token_pair.go:28-54 | Performs `AdminSpec.UnlinkTokenPair` in place. On success the requested key is gone, and on error the token pairs are unchanged. |
| `CctpKeeper.Keeper.UpdateAttesterManager` | noble-cctp-master/x/cctp/keeper/msg_server_update_attester_manager.go:28-51 | Performs `AdminSpec.UpdateAttesterManager` in place. On success the field holds the new manager, and on error it is unchanged. |

## Left out

- Event emission through the SDK event manager is left out. In the code its error is returned together with a successful response; the model treats emission as infallible and records the event in the effect log.
- The implementation of `SendMessage` and `SendMessageWithCaller` is not part of this model. Their nonce handling and error messages follow the tests of `SendMessageWithCaller`. Only the sender check coming before the caller check is fixed by those tests.
- `SendMessageSpec.SendMessageWithCallerGuards`: the order caller, pause flag, recipient, body size is an assumption about an emitter whose implementation is not modelled. So are plain `SendMessage`'s checks in `SendMessageSpec.SendMessageGuards`.
- `SendMessageSpec.EmitGuards` and `SendMessageSpec.SendMessageWithCallerGuards` refuse a recipient or destination caller only when it is empty or the 32-byte zero word, so a shorter all-zero value passes. This reading is an assumption, since the emitter's implementation is not modelled; it mirrors the mint-recipient check of `depositForBurn`.
- `CctpTypes.MessageBodyVersion` is taken to be 0. Its value is defined outside this core, and only its name appears in the burn message.
- The internals of the collaborators are left out because they are outside this core: bech32 parsing, bank transfers, the fiat-token-factory burn and minting denomination, the burn-message byte encoding and Keccak-256. Each is an opaque total function of the `Env` parameter.
- The hex encoding of the burn-token hash in the deposit event is left out. The event carries the raw hash bytes.
- Error reasons leave out the parser's detail that the code appends to "invalid from address" and "invalid attester manager address".
- `CctpTypes.ToLower` and `CctpTypes.EqualFold` model `strings.ToLower` and `strings.EqualFold` for ASCII letters only; Unicode case folding is left out.
- The SDK's transaction-level rollback of a failed message is left out. `DepositForBurnSpec.BurnAndSend` records the transfer and burn that happened before a later failure, and keeps the store as the keeper left it.
- The mint recipient's length is not checked beyond the nil and all-zero tests, because the code does not check it.
- Gas, concurrency and the chain's block processing are left out. Requests are applied one at a time, in the order given.
- `NonceSpace.RunNeverRepeatsNonce` requires that the run cannot wrap the 64-bit nonce. With wrap-around, `NonceSpace.RunAllocatesConsecutively` states the modular sequence.
