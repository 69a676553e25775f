/** Constants and arithmetic shared by several parts of the program. */
module Config {

  /** Most pages in one RDMA write. */
  const RDMA_WR_BUF_LEN: nat := 128

  /** Slots of the sending list and of the reclaim list: 25 * 2^18. */
  const CONFIGURED_QUEUE_SIZE: nat := 6553600

  /** Write contexts for each processor and node. */
  const VALET_QUEUE_DEPTH: nat := 256

  /** Pages in the local pool. */
  const POOL_PAGES: nat := 131072

  // Connection states, in the order the client compares them.
  const CB_IDLE: nat := 0
  const CB_CONNECTED: nat := 1
  const CB_MAPPED: nat := 2
  const CB_MIGRATING: nat := 3

  function Min(a: int, b: int): (r: int) {
    if a < b then a else b
  }
}
