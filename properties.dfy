/** What the handlers guarantee together, over any sequence of instructions. */
module LedgerProperties {
  import opened Types
  import opened Ledger

  /** The supply never passes the cap, whatever instructions run and however they end. */
  lemma {:induction false} CapHoldsOnEveryTrace(s: State, ixs: seq<Instruction>)
    requires WithinCap(s.mint)
    ensures WithinCap(Run(s, ixs).final.mint)
    decreases |ixs|
  {
    if ixs != [] {
      CapHoldsOnEveryTrace(Execute(s, ixs[0]).post, ixs[1..]);
    }
  }

  /** The cap holds from `initialize_mint` on, whatever follows it. */
  lemma CapHoldsFromInitialization(
    m: MintState, maxSupply: u64, authority: Pubkey, usedNonces: seq<Nonce>, ixs: seq<Instruction>)
    requires InitializeMint(m, maxSupply, authority, true).result.Ok?
    ensures WithinCap(Run(State(InitializeMint(m, maxSupply, authority, true).post, usedNonces), ixs).final.mint)
  {
    CapHoldsOnEveryTrace(State(InitializeMint(m, maxSupply, authority, true).post, usedNonces), ixs);
  }

  /** No instruction changes the cap or the recorded authority. */
  lemma {:induction false} CapAndAuthorityFixed(s: State, ixs: seq<Instruction>)
    ensures Run(s, ixs).final.mint.maxSupply == s.mint.maxSupply
    ensures Run(s, ixs).final.mint.authority == s.mint.authority
    decreases |ixs|
  {
    if ixs != [] {
      CapAndAuthorityFixed(Execute(s, ixs[0]).post, ixs[1..]);
    }
  }

  /** The registry is append-only: what it held before is a prefix of what it holds after. */
  lemma {:induction false} NoncesOnlyGrow(s: State, ixs: seq<Instruction>)
    ensures s.usedNonces <= Run(s, ixs).final.usedNonces
    decreases |ixs|
  {
    if ixs != [] {
      NoncesOnlyGrow(Execute(s, ixs[0]).post, ixs[1..]);
    }
  }

  /** The supply moves by exactly the amounts the successful instructions report. */
  lemma {:induction false} SupplyReconciles(s: State, ixs: seq<Instruction>)
    ensures Run(s, ixs).final.mint.currentSupply == s.mint.currentSupply + NetSupplyChange(Run(s, ixs).results)
    decreases |ixs|
  {
    if ixs != [] {
      var st := Execute(s, ixs[0]);
      SupplyReconciles(st.post, ixs[1..]);
      var results := Run(s, ixs).results;
      assert results[1..] == Run(st.post, ixs[1..]).results;
    }
  }

  /** `InvalidChainId` is declared but no instruction ever fails with it. */
  lemma {:induction false} InvalidChainIdNeverRaised(s: State, ixs: seq<Instruction>)
    ensures forall i :: 0 <= i < |ixs| ==> Run(s, ixs).results[i] != Err(Program(InvalidChainId))
    decreases |ixs|
  {
    if ixs != [] {
      var st := Execute(s, ixs[0]);
      InvalidChainIdNeverRaised(st.post, ixs[1..]);
      var results := Run(s, ixs).results;
      forall i | 0 <= i < |ixs| ensures results[i] != Err(Program(InvalidChainId)) {
        if i > 0 {
          assert results[i] == Run(st.post, ixs[1..]).results[i - 1];
        }
      }
    }
  }

  /**
    Replay protection: once a transfer with `nonce` has been received, every later
    delivery with the same nonce against the same registry account fails with
    `NonceAlreadyUsed`, whatever its source chain, sender, recipient or amount and
    whatever ran in between. The program does not bind which registry account an
    instruction receives; a trace here always uses the same one.
   */
  lemma ReplayRejected(
    s: State, sourceChain: u16, sender: Pubkey, recipient: Pubkey, amount: u64, nonce: Nonce,
    tokenProgramOk: bool, later: seq<Instruction>,
    sourceChain': u16, sender': Pubkey, recipient': Pubkey, amount': u64, tokenProgramOk': bool)
    requires ReceiveCrossChainTransfer(s, sourceChain, sender, recipient, amount, nonce, tokenProgramOk).result.Ok?
    ensures
      var received := ReceiveCrossChainTransfer(s, sourceChain, sender, recipient, amount, nonce, tokenProgramOk).post;
      var after := Run(received, later).final;
      ReceiveCrossChainTransfer(after, sourceChain', sender', recipient', amount', nonce, tokenProgramOk').result
        == Err(Program(NonceAlreadyUsed))
  {
    var received := ReceiveCrossChainTransfer(s, sourceChain, sender, recipient, amount, nonce, tokenProgramOk).post;
    NoncesOnlyGrow(received, later);
    var after := Run(received, later).final;
    assert received.usedNonces[|s.usedNonces|] == nonce;
    assert after.usedNonces[|s.usedNonces|] == nonce;
  }

  /**
    Sending `amount` away and then receiving the same `amount` under a fresh nonce
    succeeds when the SPL `mint_to` call succeeds, and puts the supply back where it was.
   */
  lemma BurnThenReceiveRestores(
    s: State, destinationChain: u16, recipient: Pubkey, amount: u64, nonce: Nonce, clock: Option<i64>,
    sourceChain: u16, sender: Pubkey, inboundRecipient: Pubkey, inboundNonce: Nonce)
    requires WithinCap(s.mint)
    requires CrossChainTransfer(s.mint, destinationChain, recipient, amount, nonce, true, clock).result.Ok?
    requires inboundNonce !in s.usedNonces
    ensures
      var burned := State(CrossChainTransfer(s.mint, destinationChain, recipient, amount, nonce, true, clock).post, s.usedNonces);
      var received := ReceiveCrossChainTransfer(burned, sourceChain, sender, inboundRecipient, amount, inboundNonce, true);
      received.result.Ok? && received.post.mint == s.mint
  {
  }

  /** Scenario: when the SPL `mint_to` call succeeds, a delivery of exactly the remaining
      headroom fills the cap; one more unit is refused (by the u64 addition itself when
      the cap is the largest u64). */
  lemma ReceiveUpToCap(s: State, sourceChain: u16, sender: Pubkey, recipient: Pubkey, nonce: Nonce)
    requires WithinCap(s.mint) && nonce !in s.usedNonces
    ensures
      var headroom := s.mint.maxSupply - s.mint.currentSupply;
      var exact := ReceiveCrossChainTransfer(s, sourceChain, sender, recipient, headroom, nonce, true);
      exact.result.Ok? && exact.post.mint.currentSupply == s.mint.maxSupply
    ensures
      var headroom := s.mint.maxSupply - s.mint.currentSupply;
      headroom + 1 < U64_LIMIT ==>
      ReceiveCrossChainTransfer(s, sourceChain, sender, recipient, headroom + 1, nonce, true).result
        == if s.mint.maxSupply + 1 < U64_LIMIT then Err(Program(ExceedsMaxSupply)) else Err(AddOverflow)
  {
  }
}
