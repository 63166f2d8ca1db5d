/** Compact block filters: hashes, filter headers and commitments (BIP 157, "Filter Headers"). */
module Filters {

  /** The double SHA-256 of the contents of a filter, idealized as injective. */
  datatype FilterHash = FilterHash(contents: nat)

  /** A filter header commits to one filter hash and to the previous filter header. */
  datatype FilterHeader = Seed(id: nat) | Link(filterHash: FilterHash, prev: FilterHeader)

  datatype Commitment = Commitment(header: FilterHeader, filterHash: FilterHash)
}
