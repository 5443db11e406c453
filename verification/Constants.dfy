/** Sizes shared by the client and the server. */
module Constants {
  const CHUNK_SIZE := 10_000_000
  const IV_SIZE := 12
  const TAG_SIZE := 16

  /** What encryption adds to a chunk: the initialisation vector and the tag. */
  const TOTAL_OVERHEAD := 28

  const STORED_SIZE := CHUNK_SIZE + TOTAL_OVERHEAD
}
