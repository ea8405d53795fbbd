/** The limits on imported documents. */
module Limits {
  const MAX_FILE_BYTES: nat := 8 * 1024 * 1024
  const MAX_TOTAL_BYTES: nat := 24 * 1024 * 1024
  const MAX_DOCUMENTS: nat := 64
  const MAX_DEPTH: nat := 128
  const MAX_NODES: nat := 100_000
  const MAX_REFS: nat := 10_000
  const MAX_REQUESTS: nat := 10_000
}
