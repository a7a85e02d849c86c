/** Token accounts and the token program's transfer. */
module Tokens {
  import opened Results

  function Deposit(balance: nat, tokens: nat): Option<nat> {
    if balance + tokens > U64_MAX then None else Some(balance + tokens)
  }

  function Withdraw(balance: nat, tokens: nat): Option<nat> {
    if balance < tokens then None else Some(balance - tokens)
  }

  type Key = nat

  /** A token account of one mint; only its owner can move tokens out. */
  class TokenAccount {
    const mint: nat
    const owner: Key
    var amount: nat

    constructor (mint: nat, owner: Key)
      ensures this.mint == mint && this.owner == owner && amount == 0
    {
      this.mint := mint;
      this.owner := owner;
      amount := 0;
    }
  }

  /** The sender's side: its owner signs, the mints agree and there are enough tokens. */
  predicate CanSend(from: TokenAccount, to: TokenAccount, tokens: nat, signer: Key)
    reads from
  {
    from.owner == signer && from.mint == to.mint && tokens <= from.amount
  }

  /** The receiver's side. An account may be sent its own tokens. */
  predicate HasRoom(from: TokenAccount, to: TokenAccount, tokens: nat)
    reads to
  {
    from == to || to.amount + tokens <= U64_MAX
  }

  /** Moves tokens between accounts of one mint; nothing changes within one account. */
  method Transfer(from: TokenAccount, to: TokenAccount, tokens: nat, signer: Key) returns (r: Result<()>)
    modifies from, to
    ensures r.Ok? <==> old(CanSend(from, to, tokens, signer) && HasRoom(from, to, tokens))
    ensures r.Ok? && from != to ==> from.amount == old(from.amount) - tokens && to.amount == old(to.amount) + tokens
    ensures r.Err? || from == to ==> from.amount == old(from.amount) && to.amount == old(to.amount)
  {
    if from.owner != signer || from.mint != to.mint {
      return Err(InvalidAccount);
    }
    if from.amount < tokens {
      return Err(InsufficientFunds);
    }
    if from != to {
      if to.amount + tokens > U64_MAX {
        return Err(MathOverflow);
      }
      from.amount := from.amount - tokens;
      to.amount := to.amount + tokens;
    }
    r := Ok(());
  }
}
