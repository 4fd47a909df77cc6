/**
  The instruction handlers of the spiral-token program as pure transitions on the
  value of its two program-owned accounts: the `MintData` supply ledger and the
  `NonceRegistry` replay guard. A handler that fails returns its input state: the
  Solana runtime discards every account write of an instruction that returns `Err`
  or panics.
 */
module Ledger {
  import opened Types

  /** The contents of a `MintData` account. */
  datatype MintState = MintState(maxSupply: u64, currentSupply: u64, authority: Pubkey)

  /** The contents of the `MintData` and `NonceRegistry` accounts together. */
  datatype State = State(mint: MintState, usedNonces: seq<Nonce>)

  /** The invariant the supply ledger exists to keep. */
  predicate WithinCap(m: MintState) {
    m.currentSupply <= m.maxSupply
  }

  /** `initialize_mint`: after the SPL mint is created, record the cap, an empty supply and the signer. */
  function InitializeMint(m: MintState, maxSupply: u64, authority: Pubkey, tokenProgramOk: bool): (st: Step<MintState, ()>)
    ensures st.result.Ok? <==> tokenProgramOk
    ensures st.result.Err? ==> st.result.error == TokenProgram && st.post == m
    ensures st.result.Ok? ==>
      st.post.maxSupply == maxSupply && st.post.currentSupply == 0 && st.post.authority == authority
    ensures st.result.Ok? ==> WithinCap(st.post)
  {
    if !tokenProgramOk then Step(m, Err(TokenProgram))
    else Step(MintState(maxSupply, 0, authority), Ok(()))
  }

  /** `mint_tokens`: mint `amount` to the recipient token account unless the cap would be passed. */
  function MintTokens(m: MintState, recipient: Pubkey, amount: u64, tokenProgramOk: bool): (st: Step<MintState, Event>)
    ensures st.result.Err? ==> st.post == m
    ensures st.result == Err(AddOverflow) <==> m.currentSupply + amount >= U64_LIMIT
    ensures st.result == Err(Program(ExceedsMaxSupply)) <==>
      m.currentSupply + amount < U64_LIMIT && m.currentSupply + amount > m.maxSupply
    ensures st.result == Err(TokenProgram) <==> m.currentSupply + amount <= m.maxSupply && !tokenProgramOk
    ensures st.result.Ok? <==> m.currentSupply + amount <= m.maxSupply && tokenProgramOk
    ensures st.result.Ok? ==>
      st.post.currentSupply == m.currentSupply + amount &&
      st.post.maxSupply == m.maxSupply && st.post.authority == m.authority &&
      st.result.value == TokensMinted(recipient, amount, st.post.currentSupply)
    ensures st.result.Ok? ==> WithinCap(st.post)
  {
    if m.currentSupply + amount >= U64_LIMIT then Step(m, Err(AddOverflow))
    else if m.currentSupply + amount > m.maxSupply then Step(m, Err(Program(ExceedsMaxSupply)))
    else if !tokenProgramOk then Step(m, Err(TokenProgram))
    else
      var post := m.(currentSupply := m.currentSupply + amount);
      Step(post, Ok(TokensMinted(recipient, amount, post.currentSupply)))
  }

  /**
    `cross_chain_transfer`: burn `amount` from the sender and lower the recorded supply.
    The program has no bound check of its own: a supply below `amount` makes the u64
    subtraction panic, and `destinationChain` is not validated.
   */
  function CrossChainTransfer(
    m: MintState, destinationChain: u16, recipient: Pubkey, amount: u64, nonce: Nonce,
    tokenProgramOk: bool, clock: Option<i64>): (st: Step<MintState, Event>)
    ensures st.result.Err? ==> st.post == m
    ensures st.result == Err(TokenProgram) <==> !tokenProgramOk
    ensures st.result == Err(SubUnderflow) <==> tokenProgramOk && amount > m.currentSupply
    ensures st.result == Err(ClockSysvar) <==> tokenProgramOk && amount <= m.currentSupply && clock.None?
    ensures st.result.Ok? <==> tokenProgramOk && amount <= m.currentSupply && clock.Some?
    ensures st.result.Ok? ==>
      st.post.currentSupply == m.currentSupply - amount &&
      st.post.maxSupply == m.maxSupply && st.post.authority == m.authority &&
      st.result.value == CrossChainTransferInitiated(
        CrossChainTransferInfo(SOLANA_CHAIN_ID, destinationChain, recipient, amount, nonce, clock.value))
    ensures WithinCap(m) ==> WithinCap(st.post)
  {
    if !tokenProgramOk then Step(m, Err(TokenProgram))
    else if amount > m.currentSupply then Step(m, Err(SubUnderflow))
    else if clock.None? then Step(m, Err(ClockSysvar))
    else
      var info := CrossChainTransferInfo(SOLANA_CHAIN_ID, destinationChain, recipient, amount, nonce, clock.value);
      Step(m.(currentSupply := m.currentSupply - amount), Ok(CrossChainTransferInitiated(info)))
  }

  /** `NonceRegistry::mark_nonce_used`: append a nonce that is not yet present. */
  function MarkNonceUsed(used: seq<Nonce>, nonce: Nonce): (r: Result<seq<Nonce>>)
    ensures r.Err? <==> nonce in used
    ensures r.Err? ==> r.error == Program(NonceAlreadyUsed)
    ensures r.Ok? ==> |r.value| == |used| + 1 && r.value[..|used|] == used && r.value[|used|] == nonce
    ensures r.Ok? ==> forall n :: n in r.value <==> n in used || n == nonce
  {
    if nonce in used then Err(Program(NonceAlreadyUsed)) else Ok(used + [nonce])
  }

  /**
    `receive_cross_chain_transfer`: consume the nonce, then mint `amount` unless the cap
    would be passed. The handler tests the nonce itself and `mark_nonce_used` tests it
    again; both reject a used nonce with `NonceAlreadyUsed`, so one test stands for both.
    `sourceChain`, `sender` and `recipient` are not validated; they only reach the event.
   */
  function ReceiveCrossChainTransfer(
    s: State, sourceChain: u16, sender: Pubkey, recipient: Pubkey, amount: u64, nonce: Nonce,
    tokenProgramOk: bool): (st: Step<State, Event>)
    ensures st.result.Err? ==> st.post == s
    ensures st.result == Err(Program(NonceAlreadyUsed)) <==> nonce in s.usedNonces
    ensures st.result == Err(AddOverflow) <==>
      nonce !in s.usedNonces && s.mint.currentSupply + amount >= U64_LIMIT
    ensures st.result == Err(Program(ExceedsMaxSupply)) <==>
      nonce !in s.usedNonces && s.mint.currentSupply + amount < U64_LIMIT &&
      s.mint.currentSupply + amount > s.mint.maxSupply
    ensures st.result == Err(TokenProgram) <==>
      nonce !in s.usedNonces && s.mint.currentSupply + amount <= s.mint.maxSupply && !tokenProgramOk
    ensures st.result.Ok? <==>
      nonce !in s.usedNonces && s.mint.currentSupply + amount <= s.mint.maxSupply && tokenProgramOk
    ensures st.result.Ok? ==>
      st.post.usedNonces == s.usedNonces + [nonce] &&
      st.post.mint.currentSupply == s.mint.currentSupply + amount &&
      st.post.mint.maxSupply == s.mint.maxSupply && st.post.mint.authority == s.mint.authority &&
      st.result.value == CrossChainTransferReceived(sourceChain, sender, recipient, amount, nonce)
    ensures st.result.Ok? ==> WithinCap(st.post.mint)
  {
    match MarkNonceUsed(s.usedNonces, nonce)
    case Err(e) => Step(s, Err(e))
    case Ok(marked) =>
      // from here on every failure also drops the nonce just pushed
      if s.mint.currentSupply + amount >= U64_LIMIT then Step(s, Err(AddOverflow))
      else if s.mint.currentSupply + amount > s.mint.maxSupply then Step(s, Err(Program(ExceedsMaxSupply)))
      else if !tokenProgramOk then Step(s, Err(TokenProgram))
      else
        var mint := s.mint.(currentSupply := s.mint.currentSupply + amount);
        Step(State(mint, marked), Ok(CrossChainTransferReceived(sourceChain, sender, recipient, amount, nonce)))
  }

  /** One invocation of a handler that works on an initialized `MintData`, with its arguments and the outcomes of its foreign calls. */
  datatype Instruction =
    | MintTokensIx(recipient: Pubkey, amount: u64, tokenProgramOk: bool)
    | CrossChainTransferIx(destinationChain: u16, recipient: Pubkey, amount: u64, nonce: Nonce,
                           tokenProgramOk: bool, clock: Option<i64>)
    | ReceiveCrossChainTransferIx(sourceChain: u16, sender: Pubkey, recipient: Pubkey, amount: u64,
                                  nonce: Nonce, tokenProgramOk: bool)

  /** How an event moves the recorded supply. */
  function SupplyChange(e: Event): int {
    match e
    case TokensMinted(_, amount, _) => amount
    case CrossChainTransferInitiated(info) => 0 - info.amount as int
    case CrossChainTransferReceived(_, _, _, amount, _) => amount
  }

  /** Run one instruction against both accounts. */
  function Execute(s: State, ix: Instruction): (st: Step<State, Event>)
    ensures st.result.Err? ==> st.post == s
    ensures WithinCap(s.mint) ==> WithinCap(st.post.mint)
    ensures s.usedNonces <= st.post.usedNonces
    ensures st.post.mint.maxSupply == s.mint.maxSupply && st.post.mint.authority == s.mint.authority
    ensures st.result.Ok? ==> st.post.mint.currentSupply == s.mint.currentSupply + SupplyChange(st.result.value)
    ensures st.result != Err(Program(InvalidChainId))
  {
    match ix
    case MintTokensIx(recipient, amount, ok) =>
      var m := MintTokens(s.mint, recipient, amount, ok);
      Step(s.(mint := m.post), m.result)
    case CrossChainTransferIx(chain, recipient, amount, nonce, ok, clock) =>
      var m := CrossChainTransfer(s.mint, chain, recipient, amount, nonce, ok, clock);
      Step(s.(mint := m.post), m.result)
    case ReceiveCrossChainTransferIx(chain, sender, recipient, amount, nonce, ok) =>
      ReceiveCrossChainTransfer(s, chain, sender, recipient, amount, nonce, ok)
  }

  /** The state after a sequence of instructions and what each of them returned. */
  datatype Trace = Trace(final: State, results: seq<Result<Event>>)

  function Run(s: State, ixs: seq<Instruction>): (t: Trace)
    ensures |t.results| == |ixs|
    decreases |ixs|
  {
    if ixs == [] then Trace(s, [])
    else
      var st := Execute(s, ixs[0]);
      var rest := Run(st.post, ixs[1..]);
      Trace(rest.final, [st.result] + rest.results)
  }

  /** The net supply change that the successful instructions of a trace report in their events. */
  function NetSupplyChange(results: seq<Result<Event>>): int
    decreases |results|
  {
    if results == [] then 0
    else (if results[0].Ok? then SupplyChange(results[0].value) else 0) + NetSupplyChange(results[1..])
  }
}
