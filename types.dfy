/** Machine types, account keys, errors and events of the spiral-token program. */
module Types {

  const U8_LIMIT: int := 0x100
  const U16_LIMIT: int := 0x1_0000
  const U64_LIMIT: int := 0x1_0000_0000_0000_0000
  const I64_MIN: int := -0x8000_0000_0000_0000
  const I64_LIMIT: int := 0x8000_0000_0000_0000

  type u8 = x: int | 0 <= x < U8_LIMIT
  type u16 = x: int | 0 <= x < U16_LIMIT
  type u64 = x: int | 0 <= x < U64_LIMIT
  type i64 = x: int | I64_MIN <= x < I64_LIMIT

  /** A `[u8; 32]` value. */
  type Bytes32 = s: seq<u8> | |s| == 32 witness ZERO_BYTES32

  const ZERO_BYTES32: seq<u8> := seq(32, _ => 0)

  /** A Solana public key (32 bytes). */
  type Pubkey = Bytes32

  /** The replay-protection nonce of a cross-chain transfer (32 bytes). */
  type Nonce = Bytes32

  /** The chain id the program writes as the source of every outbound transfer. */
  const SOLANA_CHAIN_ID: u16 := 102

  /** The program's own `ErrorCode` enum. */
  datatype ErrorCode = ExceedsMaxSupply | NonceAlreadyUsed | InvalidChainId

  /** Everything that aborts an instruction. */
  datatype Error =
    | Program(code: ErrorCode)   // a `require!` or `Err(..)` of this program
    | AddOverflow                // a u64 `+` panicked
    | SubUnderflow               // a u64 `-=` panicked
    | TokenProgram               // a call into the SPL Token program returned an error
    | ClockSysvar                // `Clock::get()` returned an error

  datatype Result<T> = Ok(value: T) | Err(error: Error)

  datatype Option<T> = None | Some(value: T)

  /** The record stored in the "transfer initiated" event. */
  datatype CrossChainTransferInfo = CrossChainTransferInfo(
    sourceChain: u16,
    destinationChain: u16,
    recipient: Pubkey,
    amount: u64,
    nonce: Nonce,
    timestamp: i64)

  /** The three events the program emits, as values (their encoding is not modelled). */
  datatype Event =
    | TokensMinted(recipient: Pubkey, amount: u64, newSupply: u64)
    | CrossChainTransferInitiated(transferInfo: CrossChainTransferInfo)
    | CrossChainTransferReceived(sourceChain: u16, sender: Pubkey, recipient: Pubkey, amount: u64, nonce: Nonce)

  /** The outcome of one handler: the resulting account state and what the handler returned. */
  datatype Step<S, T> = Step(post: S, result: Result<T>)
}
