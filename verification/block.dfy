/**
 A model of the `Block` class: a record of the previous block's hash, a
 transaction tuple, the block's own hash and a creation timestamp.
 */
module Blocks {
  import opened Wrappers

  /** Python's `hash` returns an integer. */
  type Hash = int

  /** The wall clock is not modelled; a timestamp is whatever the caller passes in. */
  type Timestamp = int

  /**
   The built-in `hash`, applied to the tuple `(previous_hash,) + transactions`.
   Its values are process-specific, so the model takes it as a parameter and
   assumes nothing about it: in particular it need not be injective.
   */
  type HashFn<!T> = (Option<Hash>, seq<T>) -> Hash

  datatype Block<T> = Block(
    previousHash: Option<Hash>,
    transactions: seq<T>,
    thisHash: Hash,
    timestamp: Timestamp)

  /** `generate_hash`: the hash recomputed from the block's current fields. */
  function GenerateHash<T>(h: HashFn<T>, b: Block<T>): Hash
  {
    h(b.previousHash, b.transactions)
  }

  /** The stored hash still agrees with the block's current contents. */
  predicate Sealed<T>(h: HashFn<T>, b: Block<T>)
  {
    b.thisHash == GenerateHash(h, b)
  }

  /**
   `Block(previous_hash, transactions)`: the hash is taken from the two given
   fields before the timestamp is read, so the new block is sealed and its
   hash is the same whatever the clock said.
   */
  function NewBlock<T>(h: HashFn<T>, prev: Option<Hash>, txs: seq<T>, now: Timestamp): (b: Block<T>)
    ensures b.previousHash == prev && b.transactions == txs && b.timestamp == now
    ensures Sealed(h, b)
    ensures b.thisHash == h(prev, txs)
  {
    Block(prev, txs, h(prev, txs), now)
  }

  /** `Block()` with its defaults: no predecessor and the empty tuple. */
  function Genesis<T>(h: HashFn<T>, now: Timestamp): (b: Block<T>)
    ensures b.previousHash == None && b.transactions == []
    ensures Sealed(h, b)
  {
    NewBlock(h, None, [], now)
  }

  /** Two blocks built from the same fields at different times carry the same hash. */
  lemma HashIgnoresTimestamp<T>(h: HashFn<T>, prev: Option<Hash>, txs: seq<T>, t1: Timestamp, t2: Timestamp)
    ensures NewBlock(h, prev, txs, t1).thisHash == NewBlock(h, prev, txs, t2).thisHash
  {
  }
}
