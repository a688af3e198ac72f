/**
 A model of the `Chain` class: a list of blocks that starts with a genesis
 block, grows by `register_block`, and is checked by `isvalid`.
 */
module Chains {
  import opened Wrappers
  import opened Blocks

  /** The `chain` attribute: index 0 is the genesis block. */
  type Chain<T> = seq<Block<T>>

  /** The clock reading and transactions of one `register_block` call. */
  datatype Registration<T> = Registration(transactions: seq<T>, now: Timestamp)

  /** `Chain()`: a single genesis block. */
  function NewChain<T>(h: HashFn<T>, now: Timestamp): (c: Chain<T>)
    ensures |c| == 1
    ensures c[0].previousHash == None && c[0].transactions == []
    ensures c[0].timestamp == now
    ensures Sealed(h, c[0])
  {
    [Genesis(h, now)]
  }

  /**
   `register_block(transactions)`: append a block whose previous hash is the
   tail's STORED `this_hash`. The existing blocks are untouched.
   `register_block` reads `self.chain[-1]`, so it needs a non-empty chain,
   which every chain made by `Chain()` is.
   */
  function RegisterBlock<T>(h: HashFn<T>, c: Chain<T>, txs: seq<T>, now: Timestamp): (r: Chain<T>)
    requires |c| > 0
    ensures |r| == |c| + 1
    ensures r[..|c|] == c
    ensures r[|c|].transactions == txs && r[|c|].timestamp == now
    ensures r[|c|].previousHash == Some(c[|c| - 1].thisHash)
    ensures Sealed(h, r[|c|])
  {
    c + [NewBlock(h, Some(c[|c| - 1].thisHash), txs, now)]
  }

  /** Link `i` holds: block `i` names the hash recomputed from block `i - 1`. */
  predicate Linked<T>(h: HashFn<T>, c: Chain<T>, i: int)
    requires 1 <= i < |c|
  {
    c[i].previousHash == Some(GenerateHash(h, c[i - 1]))
  }

  /** Every link from index 1 on holds; index 0 has no link to check. */
  predicate AllLinked<T>(h: HashFn<T>, c: Chain<T>)
  {
    forall i :: 1 <= i < |c| ==> Linked(h, c, i)
  }

  /**
   `isvalid`: walk the blocks in order, skip index 0, and stop with false at
   the first block whose previous hash differs from the predecessor's
   recomputed hash.
   */
  method IsValid<T>(h: HashFn<T>, c: Chain<T>) returns (valid: bool)
    ensures valid <==> AllLinked(h, c)
  {
    var i := 0;
    while i < |c|
      invariant 0 <= i <= |c|
      invariant forall j :: 1 <= j < i ==> Linked(h, c, j)
    {
      if i != 0 && c[i].previousHash != Some(GenerateHash(h, c[i - 1])) {
        assert !Linked(h, c, i);
        return false;
      }
      i := i + 1;
    }
    return true;
  }

  /**
   Appending keeps the chain valid exactly when the chain was valid and its
   tail is still sealed: the new link is made from the stored hash but is
   checked against a recomputed one.
   */
  lemma RegisterBlockValidity<T>(h: HashFn<T>, c: Chain<T>, txs: seq<T>, now: Timestamp)
    requires |c| > 0
    ensures AllLinked(h, RegisterBlock(h, c, txs, now)) <==> AllLinked(h, c) && Sealed(h, c[|c| - 1])
  {
    var r := RegisterBlock(h, c, txs, now);
    assert forall i :: 0 <= i < |c| ==> r[i] == c[i];
    if AllLinked(h, r) {
      assert Linked(h, r, |c|);
      forall i | 1 <= i < |c|
        ensures Linked(h, c, i)
      {
        assert Linked(h, r, i);
      }
    }
    if AllLinked(h, c) && Sealed(h, c[|c| - 1]) {
      forall i | 1 <= i < |r|
        ensures Linked(h, r, i)
      {
        if i < |c| {
          assert Linked(h, c, i);
        }
      }
    }
  }

  /** `Chain()` followed by one `register_block` call per registration, in order. */
  function BuildChain<T>(h: HashFn<T>, genesisTime: Timestamp, regs: seq<Registration<T>>): (c: Chain<T>)
    ensures |c| == |regs| + 1
    ensures c[0].previousHash == None && c[0].transactions == []
    ensures c[0].timestamp == genesisTime
    ensures forall i :: 0 <= i < |regs| ==> c[i + 1].transactions == regs[i].transactions
    ensures forall i :: 0 <= i < |regs| ==> c[i + 1].timestamp == regs[i].now
    ensures forall i :: 1 <= i < |c| ==> c[i].previousHash == Some(c[i - 1].thisHash)
    decreases |regs|
  {
    if |regs| == 0 then NewChain(h, genesisTime)
    else
      var prefix := BuildChain(h, genesisTime, regs[..|regs| - 1]);
      RegisterBlock(h, prefix, regs[|regs| - 1].transactions, regs[|regs| - 1].now)
  }

  /** Every block of a chain built through the class's own operations is sealed. */
  predicate AllSealed<T>(h: HashFn<T>, c: Chain<T>)
  {
    forall i :: 0 <= i < |c| ==> Sealed(h, c[i])
  }

  /** Any chain built by `Chain()` and `register_block` calls passes `isvalid`. */
  lemma {:induction false} BuiltChainIsValid<T>(h: HashFn<T>, genesisTime: Timestamp, regs: seq<Registration<T>>)
    ensures AllLinked(h, BuildChain(h, genesisTime, regs))
    ensures AllSealed(h, BuildChain(h, genesisTime, regs))
    decreases |regs|
  {
    if |regs| > 0 {
      var prefix := BuildChain(h, genesisTime, regs[..|regs| - 1]);
      var last := regs[|regs| - 1];
      BuiltChainIsValid(h, genesisTime, regs[..|regs| - 1]);
      RegisterBlockValidity(h, prefix, last.transactions, last.now);
      var r := RegisterBlock(h, prefix, last.transactions, last.now);
      assert forall i :: 0 <= i < |prefix| ==> r[i] == prefix[i];
    }
  }
}
