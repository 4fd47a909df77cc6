/** The two program-owned accounts, whose fields the handlers update in place. */
module Accounts {
  import opened Types
  import Ledger

  /** The supply ledger kept beside the SPL mint. */
  class MintData {
    var maxSupply: u64
    var currentSupply: u64
    var authority: Pubkey

    /** A freshly created account: Anchor's `init` hands the handler zero-filled data. */
    constructor ()
      ensures Value() == Ledger.MintState(0, 0, ZERO_BYTES32)
    {
      maxSupply := 0;
      currentSupply := 0;
      authority := ZERO_BYTES32;
    }

    function Value(): Ledger.MintState
      reads this
    {
      Ledger.MintState(maxSupply, currentSupply, authority)
    }
  }

  /** The replay guard: every nonce ever consumed, in the order it was consumed. */
  class NonceRegistry {
    var usedNonces: seq<Nonce>

    /** `is_nonce_used`: the linear scan of `Vec::contains`. */
    method IsNonceUsed(nonce: Nonce) returns (used: bool)
      ensures used <==> nonce in usedNonces
    {
      var i := 0;
      while i < |usedNonces|
        invariant 0 <= i <= |usedNonces|
        invariant nonce !in usedNonces[..i]
      {
        if usedNonces[i] == nonce {
          return true;
        }
        i := i + 1;
      }
      assert usedNonces[..i] == usedNonces;
      return false;
    }

    /** `mark_nonce_used`: reject a nonce already present, otherwise push it. */
    method MarkNonceUsed(nonce: Nonce) returns (r: Result<()>)
      modifies this
      ensures r.Err? <==> old(nonce in usedNonces)
      ensures r.Err? ==> r.error == Program(NonceAlreadyUsed) && usedNonces == old(usedNonces)
      ensures r.Ok? ==> usedNonces == old(usedNonces) + [nonce]
      ensures Ledger.MarkNonceUsed(old(usedNonces), nonce) == if r.Ok? then Ok(usedNonces) else Err(r.error)
    {
      var used := IsNonceUsed(nonce);
      if used {
        return Err(Program(NonceAlreadyUsed));
      }
      usedNonces := usedNonces + [nonce];
      return Ok(());
    }
  }
}
