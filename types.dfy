/** Values shared by every part of the CCTP keeper model: fixed-width
    integers, byte strings, the error kinds of the module, the records the
    keeper stores, and the external collaborators it calls. */
module CctpTypes {

  type byte = x: int | 0 <= x < 0x100
  type uint32 = x: int | 0 <= x < 0x1_0000_0000
  type uint64 = x: int | 0 <= x < 0x1_0000_0000_0000_0000
  type Bytes = seq<byte>

  const UINT64_MAX: uint64 := 0xffff_ffff_ffff_ffff

  /** Byte length of a mint recipient, destination caller and remote token. */
  const MintRecipientLen: nat := 32
  const DestinationCallerLen: nat := 32
  const RemoteTokenNumBytes: nat := 32

  /** The burn-message sender is a 32-byte word; the account address is
      copied in from offset 12, so at most 20 bytes of it fit. */
  const MessageSenderLen: nat := 32
  const MessageSenderOffset: nat := 12

  const MessageBodyVersion: uint32 := 0

  datatype Option<T> = None | Some(value: T)

  /** The registered error kinds of the module. */
  datatype ErrorKind =
    | ErrInvalidAddress
    | ErrSendMessage
    | ErrDepositForBurn
    | ErrBurn
    | ErrParsingBurnMessage
    | ErrUnauthorized
    | ErrInvalidRemoteToken
    | ErrTokenPairNotFound

  /** An error is its kind plus the human-readable reason it was wrapped with. */
  datatype Error = Error(kind: ErrorKind, reason: string)

  datatype Result<T> = Ok(value: T) | Err(error: Error)

  /** Adding context to an error keeps its kind, so a caller matching on the
      kind still sees the original cause. */
  function Wrap(e: Error, context: string): (w: Error)
    ensures w.kind == e.kind
    ensures |w.reason| > |e.reason| && w.reason[|w.reason| - |e.reason|..] == e.reason
  {
    Error(e.kind, context + ": " + e.reason)
  }

  function Zeros(n: nat): (z: Bytes)
    ensures |z| == n
    ensures forall i :: 0 <= i < n ==> z[i] == 0
  {
    seq(n, _ => 0)
  }

  /** A recipient or destination caller counts as set when it is non-empty
      and is not the 32-byte zero word. */
  predicate IsNonZero(b: Bytes) {
    |b| != 0 && b != Zeros(32)
  }

  /** ASCII lower-casing, the part of Unicode the module's denominations use. */
  function LowerChar(c: char): char {
    if 'A' <= c <= 'Z' then (c as int + 32) as char else c
  }

  function ToLower(s: string): (r: string)
    ensures |r| == |s|
    ensures forall i :: 0 <= i < |s| ==> r[i] == LowerChar(s[i])
  {
    seq(|s|, i requires 0 <= i < |s| => LowerChar(s[i]))
  }

  /** Case-insensitive string equality. */
  predicate EqualFold(a: string, b: string) {
    ToLower(a) == ToLower(b)
  }

  /** A coin: a denomination and an amount (an arbitrary-precision integer). */
  datatype Coin = Coin(denom: string, amount: int)

  datatype RemoteTokenMessenger = RemoteTokenMessenger(domainId: uint32, address: Bytes)

  datatype TokenPair = TokenPair(remoteDomain: uint32, remoteToken: Bytes, localToken: string)

  /** Token pairs are stored under (remote domain, remote token). */
  type TokenPairKey = (uint32, Bytes)

  /** The payload of a cross-chain burn. */
  datatype BurnMessage = BurnMessage(
    version: uint32,
    burnToken: Bytes,
    mintRecipient: Bytes,
    amount: int,
    messageSender: Bytes)

  /** An outbound message as emitted: its nonce is its identity. */
  datatype Envelope = Envelope(
    nonce: uint64,
    sender: Bytes,
    destinationDomain: uint32,
    recipient: Bytes,
    destinationCaller: Bytes,
    messageBody: Bytes)

  /** What the keeper does outside its own store: calls into the bank and the
      fiat token factory, emitted messages, and typed events. */
  datatype Effect =
    | TransferredToModule(from: Bytes, coin: Coin)
    | BurnedFromModule(coin: Coin)
    | MessageSent(envelope: Envelope)
    | DepositForBurnEvent(
        nonce: uint64,
        burnToken: Bytes,
        amount: int,
        depositor: string,
        mintRecipient: Bytes,
        destinationDomain: uint32,
        destinationTokenMessenger: Bytes,
        destinationCaller: Bytes)
    | TokenPairUnlinkedEvent(localToken: string, remoteDomain: uint32, remoteToken: Bytes)
    | AttesterManagerUpdatedEvent(previousAttesterManager: string, newAttesterManager: string)

  /** The external collaborators, seen only through their results:
      - parseAddress: bech32 decoding of an account address (None on a malformed one);
      - moduleAddress: the module account's bech32 address;
      - mintingDenom: the one denomination the fiat token factory mints and burns;
      - transfer: the bank's account-to-module transfer (Some error when it refuses);
      - burn: the fiat token factory's burn from the module account;
      - encode: the burn message's byte encoding (None when it fails);
      - keccak: Keccak-256 of a string's bytes. */
  datatype Env = Env(
    parseAddress: string -> Option<Bytes>,
    moduleAddress: string,
    mintingDenom: string,
    transfer: (Bytes, Coin) -> Option<Error>,
    burn: Coin -> Option<Error>,
    encode: BurnMessage -> Option<Bytes>,
    keccak: string -> Bytes)

  /** The 32-byte message-sender word built from an account address: a fresh
      zero word into whose bytes 12..31 the address is copied, Go `copy`
      style, so only the first min(20, |addr|) address bytes are taken. */
  function SenderWord(addr: Bytes): (w: Bytes)
    ensures |w| == MessageSenderLen
    ensures w[..MessageSenderOffset] == Zeros(MessageSenderOffset)
    ensures forall i :: 0 <= i < MessageSenderLen - MessageSenderOffset ==>
      w[MessageSenderOffset + i] == if i < |addr| then addr[i] else 0
  {
    var n := if |addr| < 20 then |addr| else 20;
    Zeros(12) + addr[..n] + Zeros(20 - n)
  }
}
