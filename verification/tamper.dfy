/**
 Mutation of a sealed block, as in `chain.chain[k].transactions = t`: the
 transactions change but the stored `this_hash` does not. `isvalid` detects
 it only through the link of the NEXT block.
 */
module Tampering {
  import opened Wrappers
  import opened Blocks
  import opened Chains

  /** Block `k` gets new transactions; every other field and block stays as it was. */
  function ReplaceTransactions<T>(c: Chain<T>, k: int, txs: seq<T>): (r: Chain<T>)
    requires 0 <= k < |c|
    ensures |r| == |c|
    ensures r[k].transactions == txs
    ensures r[k].previousHash == c[k].previousHash && r[k].thisHash == c[k].thisHash
    ensures r[k].timestamp == c[k].timestamp
    ensures forall i :: 0 <= i < |c| && i != k ==> r[i] == c[i]
  {
    c[k := c[k].(transactions := txs)]
  }

  /**
   Replacing block `k`'s transactions changes at most link `k + 1`, which then
   compares against the hash of the new transactions.
   */
  lemma TamperTouchesOnlyNextLink<T>(h: HashFn<T>, c: Chain<T>, k: int, txs: seq<T>, i: int)
    requires 0 <= k < |c| && 1 <= i < |c|
    ensures Linked(h, ReplaceTransactions(c, k, txs), i) <==>
      if i == k + 1 then c[i].previousHash == Some(h(c[k].previousHash, txs))
      else Linked(h, c, i)
  {
  }

  /**
   In a valid chain, new transactions in a non-tip block make `isvalid` fail
   exactly when they change the hash of that block's fields.
   */
  lemma {:induction false} TamperNonTipDetected<T>(h: HashFn<T>, c: Chain<T>, k: int, txs: seq<T>)
    requires AllLinked(h, c)
    requires 0 <= k < |c| - 1
    ensures AllLinked(h, ReplaceTransactions(c, k, txs)) <==>
      h(c[k].previousHash, txs) == h(c[k].previousHash, c[k].transactions)
  {
    var r := ReplaceTransactions(c, k, txs);
    assert Linked(h, c, k + 1);
    TamperTouchesOnlyNextLink(h, c, k, txs, k + 1);
    if h(c[k].previousHash, txs) == h(c[k].previousHash, c[k].transactions) {
      forall i | 1 <= i < |r|
        ensures Linked(h, r, i)
      {
        TamperTouchesOnlyNextLink(h, c, k, txs, i);
        assert Linked(h, c, i);
      }
    } else {
      assert !Linked(h, r, k + 1);
    }
  }

  /** Changing only the tip's transactions leaves the outcome of `isvalid` as it was. */
  lemma {:induction false} TamperTipUndetected<T>(h: HashFn<T>, c: Chain<T>, txs: seq<T>)
    requires |c| > 0
    ensures AllLinked(h, ReplaceTransactions(c, |c| - 1, txs)) <==> AllLinked(h, c)
  {
    var r := ReplaceTransactions(c, |c| - 1, txs);
    forall i | 1 <= i < |c|
      ensures Linked(h, r, i) <==> Linked(h, c, i)
    {
      TamperTouchesOnlyNextLink(h, c, |c| - 1, txs, i);
    }
  }

  /**
   Replacing the tip's transactions goes unnoticed until the next append: a
   valid chain with a sealed tip stays valid after the replacement and one
   `register_block` call exactly when the new transactions hash like the old
   ones under the tip's previous hash.
   */
  lemma {:induction false} TamperTipThenRegister<T>(h: HashFn<T>, c: Chain<T>, txs: seq<T>, next: seq<T>, now: Timestamp)
    requires AllLinked(h, c) && |c| > 0 && Sealed(h, c[|c| - 1])
    ensures AllLinked(h, RegisterBlock(h, ReplaceTransactions(c, |c| - 1, txs), next, now)) <==>
      h(c[|c| - 1].previousHash, txs) == h(c[|c| - 1].previousHash, c[|c| - 1].transactions)
  {
    var r := ReplaceTransactions(c, |c| - 1, txs);
    TamperTipUndetected(h, c, txs);
    RegisterBlockValidity(h, r, next, now);
  }

  /**
   A chain built with `Chain()` and `register_block` is valid, and stops being
   valid once a non-tip block's transactions are replaced by ones that hash
   differently.
   */
  lemma BuiltChainDetectsTamper<T>(h: HashFn<T>, genesisTime: Timestamp, regs: seq<Registration<T>>, k: int, txs: seq<T>)
    requires 0 <= k < |regs|
    requires var c := BuildChain(h, genesisTime, regs);
      h(c[k].previousHash, txs) != h(c[k].previousHash, c[k].transactions)
    ensures AllLinked(h, BuildChain(h, genesisTime, regs))
    ensures !AllLinked(h, ReplaceTransactions(BuildChain(h, genesisTime, regs), k, txs))
  {
    BuiltChainIsValid(h, genesisTime, regs);
    TamperNonTipDetected(h, BuildChain(h, genesisTime, regs), k, txs);
  }

  /**
   The script at the bottom of the module: register (1, 2, 3) and (1, 2, 3, 4),
   check, set the second transaction of block 1 to 11, check again. The first
   check succeeds; the second fails unless the hash of block 1's fields
   happens to be unchanged.
   */
  method Demo(h: HashFn<int>, t0: Timestamp, t1: Timestamp, t2: Timestamp)
    returns (before: bool, after: bool)
    ensures before
    ensures after <==>
      var g := Some(h(None, []));
      h(g, [1, 11, 3]) == h(g, [1, 2, 3])
  {
    var regs := [Registration([1, 2, 3], t1), Registration([1, 2, 3, 4], t2)];
    var c := BuildChain(h, t0, regs);
    assert c[1].transactions == regs[0].transactions == [1, 2, 3];
    BuiltChainIsValid(h, t0, regs);
    assert Sealed(h, c[0]);
    before := IsValid(h, c);
    var l := c[1].transactions[1 := 11];
    var mutated := ReplaceTransactions(c, 1, l);
    assert c[1].previousHash == Some(h(None, []));
    assert l == [1, 11, 3];
    TamperNonTipDetected(h, c, 1, l);
    after := IsValid(h, mutated);
  }
}
