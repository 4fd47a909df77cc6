/**
  The instruction handlers of `spiral_token`, in the order the program performs their
  steps. The calls into the SPL Token program and the clock sysvar read are foreign;
  their outcomes are parameters. An instruction that fails leaves every account as it
  found it, because the Solana runtime discards the writes of an aborted instruction;
  where a handler has already written an account before it fails, the handler below
  puts the old contents back to stand for that rollback.
 */
module SpiralToken {
  import opened Types
  import Ledger
  import opened Accounts

  /** The two accounts as one value. */
  function Snapshot(mintData: MintData, registry: NonceRegistry): Ledger.State
    reads mintData, registry
  {
    Ledger.State(mintData.Value(), registry.usedNonces)
  }

  /**
    `initialize_mint`. `decimals` only reaches the SPL Token program; `authority` is
    the signer's key.
   */
  method InitializeMint(
    mintData: MintData, decimals: u8, maxSupply: u64, authority: Pubkey, tokenProgramOk: bool)
    returns (r: Result<()>)
    modifies mintData
    ensures Step(mintData.Value(), r) ==
      Ledger.InitializeMint(old(mintData.Value()), maxSupply, authority, tokenProgramOk)
    ensures r.Ok? ==> Ledger.WithinCap(mintData.Value())
  {
    if !tokenProgramOk {
      return Err(TokenProgram);
    }
    mintData.maxSupply := maxSupply;
    mintData.currentSupply := 0;
    mintData.authority := authority;
    return Ok(());
  }

  /** `mint_tokens`; `recipient` is the key of the recipient token account. */
  method MintTokens(mintData: MintData, recipient: Pubkey, amount: u64, tokenProgramOk: bool)
    returns (r: Result<Event>)
    modifies mintData
    ensures Step(mintData.Value(), r) ==
      Ledger.MintTokens(old(mintData.Value()), recipient, amount, tokenProgramOk)
    ensures r.Err? ==> unchanged(mintData)
    ensures Ledger.WithinCap(old(mintData.Value())) ==> Ledger.WithinCap(mintData.Value())
  {
    if mintData.currentSupply + amount >= U64_LIMIT {
      return Err(AddOverflow);
    }
    if mintData.currentSupply + amount > mintData.maxSupply {
      return Err(Program(ExceedsMaxSupply));
    }
    if !tokenProgramOk {
      return Err(TokenProgram);
    }
    mintData.currentSupply := mintData.currentSupply + amount;
    return Ok(TokensMinted(recipient, amount, mintData.currentSupply));
  }

  /**
    `cross_chain_transfer`. The burn comes first and the supply is lowered after it
    with no bound check of its own; `clock` is the result of `Clock::get()`.
   */
  method CrossChainTransfer(
    mintData: MintData, destinationChain: u16, recipient: Pubkey, amount: u64, nonce: Nonce,
    tokenProgramOk: bool, clock: Option<i64>)
    returns (r: Result<Event>)
    modifies mintData
    ensures Step(mintData.Value(), r) ==
      Ledger.CrossChainTransfer(old(mintData.Value()), destinationChain, recipient, amount, nonce, tokenProgramOk, clock)
    ensures r.Err? ==> unchanged(mintData)
    ensures Ledger.WithinCap(old(mintData.Value())) ==> Ledger.WithinCap(mintData.Value())
  {
    if !tokenProgramOk {
      return Err(TokenProgram);
    }
    if amount > mintData.currentSupply {
      return Err(SubUnderflow);
    }
    mintData.currentSupply := mintData.currentSupply - amount;
    if clock.None? {
      mintData.currentSupply := mintData.currentSupply + amount;  // rolled back
      return Err(ClockSysvar);
    }
    var info := CrossChainTransferInfo(SOLANA_CHAIN_ID, destinationChain, recipient, amount, nonce, clock.value);
    return Ok(CrossChainTransferInitiated(info));
  }

  /**
    `receive_cross_chain_transfer`. The nonce is pushed before the cap is checked; a
    later failure rolls the push back.
   */
  method ReceiveCrossChainTransfer(
    mintData: MintData, registry: NonceRegistry, sourceChain: u16, sender: Pubkey,
    recipient: Pubkey, amount: u64, nonce: Nonce, tokenProgramOk: bool)
    returns (r: Result<Event>)
    modifies mintData, registry
    ensures Step(Snapshot(mintData, registry), r) ==
      Ledger.ReceiveCrossChainTransfer(
        old(Snapshot(mintData, registry)), sourceChain, sender, recipient, amount, nonce, tokenProgramOk)
    ensures r.Err? ==> Snapshot(mintData, registry) == old(Snapshot(mintData, registry))
    ensures r.Ok? ==> nonce in registry.usedNonces
    ensures Ledger.WithinCap(old(mintData.Value())) ==> Ledger.WithinCap(mintData.Value())
  {
    var used := registry.IsNonceUsed(nonce);
    if used {
      return Err(Program(NonceAlreadyUsed));
    }
    var saved := registry.usedNonces;
    var marked := registry.MarkNonceUsed(nonce);
    // the `?` after `mark_nonce_used` cannot propagate: a used nonce was rejected just above
    assert marked.Ok?;
    if mintData.currentSupply + amount >= U64_LIMIT {
      registry.usedNonces := saved;  // rolled back
      return Err(AddOverflow);
    }
    if mintData.currentSupply + amount > mintData.maxSupply {
      registry.usedNonces := saved;  // rolled back
      return Err(Program(ExceedsMaxSupply));
    }
    if !tokenProgramOk {
      registry.usedNonces := saved;  // rolled back
      return Err(TokenProgram);
    }
    mintData.currentSupply := mintData.currentSupply + amount;
    return Ok(CrossChainTransferReceived(sourceChain, sender, recipient, amount, nonce));
  }
}
