/** Values shared by the block executor, the transaction pool and the chain modules. */
module Types {

  datatype Option<+T> = None | Some(value: T)

  /** Account addresses; `ZERO_ADDRESS` is what an unresolvable sender recovers to. */
  type Address = nat

  const ZERO_ADDRESS: Address := 0

  type Hash = nat

  const MAX_UINT64: nat := 0xFFFF_FFFF_FFFF_FFFF

  type Byte = x: int | 0 <= x < 256

  /**
   * A signed transaction. `created` is the address a creating transaction (`to == None`) would
   * give its contract, a hash of the sender and the nonce; `size` is the encoded size in bytes.
   */
  datatype Tx = Tx(
    hash: Hash,
    from: Address,
    to: Option<Address>,
    nonce: nat,
    gas: nat,
    price: nat,
    value: nat,
    data: seq<Byte>,
    created: Address,
    size: nat)
  {
    /** The most the transaction can cost its sender. */
    function Cost(): nat {
      value + gas * price
    }
  }
}
