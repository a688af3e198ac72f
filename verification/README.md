# Hash-linked ledger

This project models the ledger in `blockchain.py`. A `Block` records the
previous block's hash, a tuple of transactions, its own hash, and a creation
timestamp. A `Chain` is a list of blocks that starts with a genesis block. It
grows with `register_block` and is checked by `isvalid`. `isvalid` recomputes
each predecessor's hash from that block's current fields. Because of this, a
later change to the transactions of any block except the tip shows up as a
broken link, unless the new transactions hash the same as the old ones under
that block's previous hash.

Python's built-in `hash` over the tuple `(previous_hash,) + transactions`
becomes a function-valued parameter `h: HashFn<T>`. Every member takes it as an
argument, so every result holds for every hash function. Nothing assumes that
`h` is injective: where a collision would hide a change, the lemma names the
inequality it relies on. The clock (`datetime.now()`) becomes a `now`
parameter. The hash never reads it.

Modules:

- `Wrappers` (`wrappers.dfy`): `Option`, which stands in for Python's `None`.
- `Blocks` (`block.dfy`): the `Block` record, `generate_hash` (`GenerateHash`), the constructor (`NewBlock`, `Genesis`).
- `Chains` (`chain.dfy`): `Chain()` (`NewChain`), `register_block` (`RegisterBlock`), `isvalid` (`IsValid`), and what these operations guarantee together.
- `Tampering` (`tamper.dfy`): changing a stored block's transactions in place, and what `isvalid` then reports.

Where the tests and the code disagree, the model follows the code:

- Transactions are tuples, modelled as `seq`. `(previous_hash,) + transactions` would fail on the lists that tests.py:36-37 passes.
- The genesis block's transactions are the empty tuple `()`, not the `[]` that tests.py:25 compares against.
- `Chain` has no `len` or indexing of its own (tests.py:57-58 uses both). The model exposes the underlying list as `seq<Block<T>>`.
- `blockchain.py` has no `Node` (tests.py:5 imports one).

The model also brings out a detail of the code. `register_block` links the new
block to the tail's STORED `this_hash`, while `isvalid` checks each link against
a RECOMPUTED hash. If the tip's transactions were changed after it was built,
`isvalid` does not notice. A later `register_block` then creates a link that
fails the check, unless the new transactions hash the same as the old ones
under the tip's previous hash. `Chains.RegisterBlockValidity` and
`Tampering.TamperTipThenRegister` state this as an if-and-only-if.

## Model

| member | source | states |
|---|---|---|
| Blocks.NewBlock | blockchain.py:8-16 | the new block keeps the given previous hash, transactions and timestamp, and its hash is the hash of exactly those two fields. So it is sealed, and its hash is the same whatever timestamp it carries |
| Blocks.Genesis | blockchain.py:8-11 | `Block()` has no previous hash, empty transactions, and a hash that matches its own fields |
| Blocks.HashIgnoresTimestamp | blockchain.py:11-12 | two blocks built from the same fields at different times carry the same hash |
| Chains.NewChain | blockchain.py:25-27 | a fresh chain holds exactly one block. That block has no previous hash, has empty transactions, carries the given timestamp, and is sealed |
| Chains.RegisterBlock | blockchain.py:30-31 | the length grows by exactly one, and the old chain is a prefix of the new one. The new tip holds the given transactions and names the old tip's stored hash as its previous hash |
| Chains.IsValid | blockchain.py:41-47 | returns true exactly when every block from index 1 on names the hash recomputed from its predecessor. Index 0 is never checked, so chains of zero or one block are valid |
| Chains.RegisterBlockValidity | blockchain.py:30-47 | after an append, the chain is valid exactly when it was valid before and the old tip's stored hash still matches its fields |
| Chains.BuildChain | blockchain.py:25-31 | `Chain()` followed by n `register_block` calls gives n + 1 blocks, starting with the genesis block. Block i + 1 holds the i-th call's transactions and timestamp and names block i's stored hash |
| Chains.BuiltChainIsValid | blockchain.py:25-47 | every chain built by `Chain()` and any sequence of `register_block` calls passes `isvalid`, and all of its blocks are sealed |
| Tampering.ReplaceTransactions | blockchain.py:58-60 | overwriting block k's transactions keeps the length, block k's previous hash, stored hash and timestamp, and every other block |
| Tampering.TamperTouchesOnlyNextLink | blockchain.py:41-47 | after block k's transactions are replaced, only link k + 1 can change. That link now compares against the hash of the new transactions |
| Tampering.TamperNonTipDetected | blockchain.py:41-47 | in a valid chain, new transactions in a block other than the tip keep the chain valid exactly when they hash like the old ones under that block's previous hash |
| Tampering.TamperTipUndetected | blockchain.py:41-47 | replacing only the tip's transactions never changes the outcome of `isvalid` |
| Tampering.TamperTipThenRegister | blockchain.py:30-47 | in a valid chain with a sealed tip, replacing the tip's transactions and then calling `register_block` leaves the chain valid exactly when the new transactions hash like the old ones under the tip's previous hash |
| Tampering.BuiltChainDetectsTamper | blockchain.py:25-47 | a built chain is valid before the change. It is invalid after a non-tip block's transactions are replaced by ones that hash differently |
| Tampering.Demo | blockchain.py:50-62 | in the module's script the first check returns true. The second check returns true exactly when the hash of (genesis hash, 1, 11, 3) equals the hash of (genesis hash, 1, 2, 3) |

## Left out

- Timestamps: `datetime.now()` is wall-clock input. It is a parameter here, and the model states nothing about how later blocks' timestamps are ordered (tests.py:43).
- The concrete value of Python's `hash`: it differs between processes, so the model keeps it abstract. It also leaves out the `TypeError` that Python raises for unhashable transactions.
- Chains.RegisterBlock: requires a non-empty chain. `register_block` reads `self.chain[-1]`, which raises `IndexError` on an empty list. A list built by `Chain()` and `register_block` is never empty; it can only become empty if outside code rewrites the list.
- `__repr__` and the printing in the script at the bottom of the module: these only format strings. The script's two checks are modelled by `Tampering.Demo`.
- Aliasing of mutable transaction lists: changing a block's transactions in place is modelled as a pure update of one block in the sequence.
- Node, proof-of-work, mining, peers and consensus: tests.py exercises them, but blockchain.py has no implementation of them. The HTTP consensus tests also need live servers.
