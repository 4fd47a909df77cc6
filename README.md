# spiral-token (Solana program): supply ledger and nonce registry

The Anchor program `spiral_token` keeps its own supply ledger, the `MintData`
account, beside the SPL token mint. It also keeps a replay guard, the
`NonceRegistry` account, for inbound cross-chain transfers. This project models the
four instruction handlers that read and write these two accounts, and proves:

- the cap invariant `current_supply <= max_supply`, from `initialize_mint` on and
  across any sequence of instructions;
- that every failing instruction leaves both accounts unchanged;
- that a nonce registry account is append-only and, as long as the same registry
  account is passed, rejects a replayed nonce forever;
- that the recorded supply moves by exactly the amounts the emitted events report.

Layout:

- `types.dfy` (module `Types`): the u8/u16/u64/i64 ranges, 32-byte keys and nonces,
  the program's `ErrorCode` enum, the other ways an instruction aborts, and the three
  events as values.
- `ledger.dfy` (module `Ledger`): each handler as a pure transition on the accounts'
  contents (`MintState`, `State`). It also holds `Execute` and `Run`, which run one
  instruction or a sequence of them.
- `accounts.dfy` (module `Accounts`): the accounts as classes whose fields are
  updated in place. `NonceRegistry.IsNonceUsed` is the linear scan of
  `Vec::contains`. `NonceRegistry.MarkNonceUsed` is check-then-push.
- `spiral_token.dfy` (module `SpiralToken`): the handlers as methods over those
  objects, written in the program's own step order. Each is proved equal to its
  `Ledger` transition.
- `properties.dfy` (module `LedgerProperties`): lemmas over single calls and over
  whole instruction sequences.

Modelling decisions:

- **Aborts.** Solana discards all account writes of an instruction that returns
  `Err` or panics. The pure transitions return their input state on every failure.
  The methods put back by hand what they already wrote: the nonce pushed at
  lib.rs:125 before the cap check at lib.rs:129, and the supply lowered at
  lib.rs:89 before `Clock::get()` at lib.rs:98.
- **u64 arithmetic.** The model assumes Rust overflow checks are on, as in Anchor's
  default workspace profile. So `current_supply + amount` (lib.rs:43, lib.rs:129)
  fails with `AddOverflow` when the sum reaches 2^64. The subtraction at lib.rs:89
  fails with `SubUnderflow` when `amount > current_supply`. The program has no check
  of its own there, so this panic is the only guard. The additions at lib.rs:58 and
  lib.rs:144 cannot overflow, because the cap check before them has passed.
- **Foreign calls.** Each SPL Token call is a boolean parameter `tokenProgramOk`,
  and its failure aborts with `TokenProgram`. These are `token::initialize_mint`,
  `token::mint_to` and `token::burn`. `Clock::get()` is an `Option<i64>` parameter,
  and `None` aborts with `ClockSysvar`.
- **Redundant nonce check.** `receive_cross_chain_transfer` tests the nonce itself
  (lib.rs:119-122), and then `mark_nonce_used` tests it again (lib.rs:249-250). The
  method models both tests. The pure transition folds them into one, since both
  reject with `NonceAlreadyUsed`.
- **One nonce list per registry account.** A registry is one list of caller-supplied
  nonces. It is not keyed by source chain or sender. `ReplayRejected` is stated that
  way: within the same registry account, a nonce is refused whatever the chain,
  sender, recipient or amount of the new delivery. Replay protection rests only on the
  nonce the caller chooses. Nothing binds it to source chain, sender or amount, and
  the program has no trusted-sender check, no pause flag, no identifier-width
  normalisation and no per-account outbound sequence number.
- **Mint creation.** The `InitializeMint` accounts struct asks Anchor to create and
  initialise the SPL mint itself (`init`, `mint::decimals = 8`, lib.rs:160-165) before
  the handler runs. The handler's own `token::initialize_mint` call at lib.rs:25 would
  then meet an already-initialised mint, and its `decimals` argument can differ from
  the fixed 8. The model treats that call as opaque: `tokenProgramOk` may be either
  value, so the model leaves open whether `initialize_mint` can ever succeed.
- **Events.** The handlers write `emit TokensMinted { .. };` (lib.rs:60),
  `emit CrossChainTransferInitiated { .. };` (lib.rs:101) and
  `emit CrossChainTransferReceived { .. };` (lib.rs:146) without Anchor's `emit!`
  macro, which as written would not compile. The model takes `emit!` as meant and
  returns each event as a value.
- **Arguments the program never checks.** `destination_chain`, `source_chain`,
  `sender` and the `recipient` argument of `receive_cross_chain_transfer` are never
  validated. They only reach the events. Minted tokens go to the `recipient` token
  account (lib.rs:222). Nothing ties that account to the `recipient` argument.
  `InvalidChainId` is declared but never raised.

## Model

| member | source | states |
|---|---|---|
| `Accounts.MintData.constructor` | solana/programs/spiral-token/src/lib.rs:168-173 | A newly created `MintData` account is zero-filled: cap 0, supply 0, zero authority key. |
| `Accounts.NonceRegistry.IsNonceUsed` | solana/programs/spiral-token/src/lib.rs:244-246 | Returns true iff the nonce occurs in `used_nonces`. It modifies nothing. |
| `Accounts.NonceRegistry.MarkNonceUsed` | solana/programs/spiral-token/src/lib.rs:248-254 | A nonce already present gives `NonceAlreadyUsed` and the list is unchanged. Otherwise exactly that nonce is appended, after all earlier entries in their order. Agrees with `Ledger.MarkNonceUsed`. |
| `Ledger.MarkNonceUsed` | solana/programs/spiral-token/src/lib.rs:248-254 | Fails iff the nonce is present, with `NonceAlreadyUsed`. On success the old list is a prefix, the new last entry is the nonce, and membership grows by exactly that nonce. |
| `Ledger.InitializeMint` | solana/programs/spiral-token/src/lib.rs:10-33 | Succeeds iff the SPL mint creation succeeds. On success: cap = argument, supply = 0, authority = signer, so the cap invariant holds. On failure nothing is written. |
| `Ledger.MintTokens` | solana/programs/spiral-token/src/lib.rs:35-67 | Each error is given with its exact condition: `AddOverflow` iff the sum reaches 2^64, `ExceedsMaxSupply` iff it fits in u64 but passes the cap, `TokenProgram` iff within cap but the mint CPI fails. A failure changes nothing. Success adds exactly `amount`, keeps the supply within the cap, keeps cap and authority, and reports the new supply in `TokensMinted`. |
| `Ledger.CrossChainTransfer` | solana/programs/spiral-token/src/lib.rs:69-106 | The burn CPI failing gives `TokenProgram`. `amount > current_supply` gives `SubUnderflow`. A failing clock read gives `ClockSysvar`. A failure changes nothing. Success lowers the supply by exactly `amount` and keeps cap and authority. The cap invariant is preserved. The event carries source chain 102, the arguments and the timestamp. |
| `Ledger.ReceiveCrossChainTransfer` | solana/programs/spiral-token/src/lib.rs:108-155 | Fails with `NonceAlreadyUsed` iff the nonce was consumed before. Then, in order: `AddOverflow`, `ExceedsMaxSupply`, `TokenProgram`, each with its exact condition. Any failure leaves supply and registry unchanged, which also undoes the nonce push. Success appends exactly the nonce, adds exactly `amount` within the cap, and keeps cap and authority. |
| `Ledger.Execute` | solana/programs/spiral-token/src/lib.rs:35-155 | For any one instruction: a failure changes nothing. The cap invariant is preserved, and cap and authority are untouched. The old nonce list is a prefix of the new. On success the supply moves by the amount in the emitted event. `InvalidChainId` is never the result. |
| `SpiralToken.InitializeMint` | solana/programs/spiral-token/src/lib.rs:10-33 | Writes the account exactly as `Ledger.InitializeMint` says and returns the same result. On success the cap invariant holds. |
| `SpiralToken.MintTokens` | solana/programs/spiral-token/src/lib.rs:35-67 | Updates `current_supply` in place exactly as `Ledger.MintTokens` says. On error the account is unchanged. The cap invariant is preserved. |
| `SpiralToken.CrossChainTransfer` | solana/programs/spiral-token/src/lib.rs:69-106 | Lowers `current_supply` in place exactly as `Ledger.CrossChainTransfer` says, undoing the subtraction when the clock read fails. On error the account is unchanged. The cap invariant is preserved. |
| `SpiralToken.ReceiveCrossChainTransfer` | solana/programs/spiral-token/src/lib.rs:108-155 | Checks the nonce, pushes it, checks the cap, then mints, in the source's order, with the effect `Ledger.ReceiveCrossChainTransfer` describes. On any error both accounts are as before. On success the nonce is in the registry. The cap invariant is preserved. |
| `LedgerProperties.CapHoldsOnEveryTrace` | solana/programs/spiral-token/src/lib.rs:35-155 | From any state within the cap, every sequence of instructions, succeeding or failing, ends within the cap. |
| `LedgerProperties.CapHoldsFromInitialization` | solana/programs/spiral-token/src/lib.rs:28-30 | After a successful `initialize_mint`, with any starting registry, every sequence of instructions ends within the cap. |
| `LedgerProperties.CapAndAuthorityFixed` | solana/programs/spiral-token/src/lib.rs:28-30 | Only `initialize_mint` writes `max_supply` and `authority`. No sequence of the other handlers changes them. |
| `LedgerProperties.NoncesOnlyGrow` | solana/programs/spiral-token/src/lib.rs:252 | Over any sequence of instructions, the registry before is a prefix of the registry after. |
| `LedgerProperties.SupplyReconciles` | solana/programs/spiral-token/src/lib.rs:58-64 | After any sequence, the supply equals the initial supply plus the amounts of successful `TokensMinted` and `CrossChainTransferReceived` events, minus the amounts in `CrossChainTransferInitiated` events. |
| `LedgerProperties.InvalidChainIdNeverRaised` | solana/programs/spiral-token/src/lib.rs:294-295 | No instruction in any sequence fails with `InvalidChainId`. |
| `LedgerProperties.ReplayRejected` | solana/programs/spiral-token/src/lib.rs:119-125 | Once a delivery with nonce `n` succeeds, a later delivery with `n` against the same registry account fails with `NonceAlreadyUsed`. This holds after any instructions in between and whatever the new delivery's other arguments. |
| `LedgerProperties.BurnThenReceiveRestores` | solana/programs/spiral-token/src/lib.rs:86-144 | Within the cap, a successful outbound transfer of `amount`, then a delivery of the same `amount` under a fresh nonce, succeeds when the SPL `mint_to` call succeeds. It then restores the supply ledger exactly. |
| `LedgerProperties.ReceiveUpToCap` | solana/programs/spiral-token/src/lib.rs:128-131 | When the SPL `mint_to` call succeeds, a delivery of exactly `max_supply - current_supply` under a fresh nonce succeeds and fills the cap. One unit more fails with `ExceedsMaxSupply`, or with `AddOverflow` when the cap is the largest u64. |

## Left out

- SPL Token calls (lib.rs:25, 55, 86, 141): foreign code. Each becomes a success flag. Token-account balances and the SPL mint's own supply are not modelled.
- Anchor account validation and constraints (lib.rs:158-229): framework checks. This includes signer checks, the `init` once-only rule, `mint::decimals = 8` and the `space = 8 + 32 + 8 + 8` sizing. The handlers do not compare the signer with `mint_data.authority`. Only the SPL mint authority check done inside `mint_to` restricts minting, and that check is foreign.
- Which accounts an instruction receives: the model passes the same `MintData` and the same `NonceRegistry` account to every instruction, but lib.rs does not bind them. `mint_data` (lib.rs:187-188, 202-203, 218-219) and `nonce_registry` (lib.rs:224-225) carry only `#[account(mut)]`, with no seeds, fixed address or `has_one`. A caller can pass a different registry, and a reused nonce is then not refused. The cap holds per `MintData` account, not per SPL mint.
- Creation and size of the `NonceRegistry` account: the file never initialises it. The model treats `used_nonces` as unbounded and the starting registry as arbitrary. A push past the account's allocated space fails at serialisation, and that is not modelled.
- `Clock::get()` (lib.rs:98): an external sysvar read, given as a parameter.
- Event emission and Borsh encoding (lib.rs:60-64, 101-103, 146-152, 257-286): events are returned as plain values. Their emission and encoding are not modelled.
- Instruction dispatch, the Anchor discriminator and transaction-level batching of several instructions: runtime concerns outside the program's logic.
- Rust builds with overflow checks off: the Cargo profile is not part of this model. Without overflow checks the u64 operations would wrap instead of aborting.
- Authenticity of `sender` and `source_chain`, and the cross-chain transport: the program never checks them.
