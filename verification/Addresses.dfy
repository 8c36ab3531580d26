/** The address types of the HD wallet's accounts. */
module Addresses {

  datatype AddressType = P2PKH | P2SH_P2WPKH | P2WPKH | P2TR

  /** The two types the HD wallet can spend from. */
  predicate Spendable(kind: AddressType) {
    kind.P2PKH? || kind.P2WPKH?
  }

  /** The smallest output the HD wallet creates of each spendable type. */
  function Dust(kind: AddressType): nat {
    if kind.P2PKH? then 546 else 294
  }
}
