/** Who holds how much of which asset. Ether is an asset like the tokens. */
module Ledger {
  type Address = nat

  datatype Asset = Ether | Token(contract: Address)

  type Balances = map<(Asset, Address), nat>

  function BalanceOf(b: Balances, asset: Asset, holder: Address): nat {
    if (asset, holder) in b then b[(asset, holder)] else 0
  }

  /** A transfer, by Ether payment or by a standard ERC-20 token. */
  function Move(b: Balances, asset: Asset, from: Address, to: Address, amount: nat): (b': Balances)
    requires BalanceOf(b, asset, from) >= amount
    ensures forall a, h :: !(a == asset && (h == from || h == to)) ==> BalanceOf(b', a, h) == BalanceOf(b, a, h)
    ensures from != to ==> BalanceOf(b', asset, from) == BalanceOf(b, asset, from) - amount
    ensures from != to ==> BalanceOf(b', asset, to) == BalanceOf(b, asset, to) + amount
    ensures from == to ==> BalanceOf(b', asset, to) == BalanceOf(b, asset, to)
  {
    var b1 := b[(asset, from) := BalanceOf(b, asset, from) - amount];
    b1[(asset, to) := BalanceOf(b1, asset, to) + amount]
  }
}
