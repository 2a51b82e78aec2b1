/** Addresses, and the chunk sizes that all parts of the allocator agree on. */
module Sizes {
  type Addr = int

  const MIN_CHUNK_SIZE: nat := 32

  /** Chunks of at least this size live in the tree bins. */
  const MIN_LARGE_SIZE: nat := 256
}
