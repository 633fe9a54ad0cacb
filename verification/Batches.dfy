/** The worker's batches. */
module Batches {
  const BATCH_SIZE: nat := 1000

  function BatchSize<S>(queue: seq<S>): nat {
    if |queue| < BATCH_SIZE then |queue| else BATCH_SIZE
  }
}
