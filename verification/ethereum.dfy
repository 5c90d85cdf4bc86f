/** The chain-level vocabulary the components share. */
module Ethereum {

  /** An account or contract address, as the `0x…` text the scripts pass around. */
  type Address = string

  /** `constants.AddressZero`: `0x` and forty zeros. */
  const AddressZero: Address := "0x0000000000000000000000000000000000000000"

  /** One ether in wei, the unit `parseEther` and `toWei(…, 'ether')` scale by. */
  const Ether: nat := 1_000_000_000_000_000_000
}
