/** What a block does to the total of any quantity carried by outputs. */
module Conservation {
  import opened Bytes
  import opened Types
  import opened Ledger
  import opened Sums
  import U = UtxoIndex

  type Weight = Output -> int

  function WorthAt(w: Weight, txs: Txs): Outpoint -> int {
    (o: Outpoint) => if IsOutput(txs, o) then w(OutputOf(txs, o)) else 0
  }

  lemma WorthIs(w: Weight, txs: Txs, o: Outpoint)
    requires IsOutput(txs, o)
    ensures WorthAt(w, txs)(o) == w(OutputOf(txs, o))
  {
  }

  lemma SameWorth(w: Weight, txs: Txs, all: Txs, s: set<Outpoint>)
    requires U.Within(txs, all) && forall o | o in s :: IsOutput(txs, o)
    ensures Sum(s, WorthAt(w, all)) == Sum(s, WorthAt(w, txs))
  {
    forall o | o in s ensures WorthAt(w, all)(o) == WorthAt(w, txs)(o) {
      assert IsOutput(txs, o);
      WorthIs(w, txs, o);
      WorthIs(w, all, o);
    }
    SumCongruent(s, WorthAt(w, all), WorthAt(w, txs));
  }

  /** The total over everything unspent. */
  ghost function Total(w: Weight, txs: Txs): int {
    Sum(Unspent(txs), WorthAt(w, txs))
  }

  function OutWorth(w: Weight, tx: Tx): int {
    SumOf(tx.outputs, w)
  }

  function InWorth(w: Weight, txs: Txs, tx: Tx): int {
    SumOf(tx.Spends(), WorthAt(w, txs))
  }

  function Gain(w: Weight, txs: Txs): Tx -> int {
    (tx: Tx) => OutWorth(w, tx) - InWorth(w, txs, tx)
  }

  lemma {:induction false} TxOutpointsSum(w: Weight, all: Txs, tx: Tx, i: nat)
    requires i <= |tx.outputs| <= 0x1_0000 && tx.hash in all && all[tx.hash].tx == tx
    ensures Sum(U.OutpointsFrom(tx, i), WorthAt(w, all)) == SumOf(tx.outputs[i..], w)
    decreases |tx.outputs| - i
  {
    if i == |tx.outputs| {
      assert U.OutpointsFrom(tx, i) == {};
    } else {
      var o := Outpoint(tx.hash, i);
      WorthIs(w, all, o);
      U.OutpointsFromStep(tx, i);
      TxOutpointsSum(w, all, tx, i + 1);
      SumInsert(U.OutpointsFrom(tx, i + 1), WorthAt(w, all), o);
      assert U.OutpointsFrom(tx, i) == U.OutpointsFrom(tx, i + 1) + {o};
      assert tx.outputs[i..][1..] == tx.outputs[i + 1..];
    }
  }

  function OutWorths(w: Weight): Tx -> int {
    (tx: Tx) => OutWorth(w, tx)
  }

  function InWorths(w: Weight, txs: Txs): Tx -> int {
    (tx: Tx) => InWorth(w, txs, tx)
  }

  lemma {:induction false} BlockOutpointsSum(w: Weight, all: Txs, s: seq<Tx>)
    requires forall i | 0 <= i < |s| :: |s[i].outputs| <= 0x1_0000 && s[i].hash in all && all[s[i].hash].tx == s[i]
    requires forall i, j | 0 <= i < j < |s| :: s[i].hash != s[j].hash
    ensures Sum(BlockOutpoints(s), WorthAt(w, all)) == SumOf(s, OutWorths(w))
    decreases s
  {
    if s != [] {
      assert forall i | 0 <= i < |s| - 1 :: s[1..][i] == s[i + 1];
      BlockOutpointsSum(w, all, s[1..]);
      assert U.OutpointsFrom(s[0], 0) == TxOutpoints(s[0]) && s[0].outputs[0..] == s[0].outputs;
      TxOutpointsSum(w, all, s[0], 0);
      forall o | o in TxOutpoints(s[0]) ensures o !in BlockOutpoints(s[1..]) {
        BlockOutpointsMembers(s[1..], o);
      }
      SumUnion(TxOutpoints(s[0]), BlockOutpoints(s[1..]), WorthAt(w, all));
    }
  }

  lemma {:induction false} BlockSpendsSum(w: Weight, txs: Txs, s: seq<Tx>)
    ensures SumOf(BlockSpends(s), WorthAt(w, txs)) == SumOf(s, InWorths(w, txs))
    decreases s
  {
    if s != [] {
      BlockSpendsSum(w, txs, s[1..]);
      SumOfConcat(s[0].Spends(), BlockSpends(s[1..]), WorthAt(w, txs));
    }
  }

  lemma {:induction false} GainSum(w: Weight, txs: Txs, s: seq<Tx>)
    ensures SumOf(s, Gain(w, txs)) == SumOf(s, OutWorths(w)) - SumOf(s, InWorths(w, txs))
    decreases s
  {
    if s != [] {
      GainSum(w, txs, s[1..]);
    }
  }

  lemma SpentSum(w: Weight, txs: Txs, all: Txs, s: seq<Tx>)
    requires U.Within(txs, all) && NoDuplicates(BlockSpends(s))
    requires forall o | o in BlockSpends(s) :: IsOutput(txs, o)
    ensures Sum(AsSet(BlockSpends(s)), WorthAt(w, all)) == SumOf(s, InWorths(w, txs))
  {
    SameWorth(w, txs, all, AsSet(BlockSpends(s)));
    SumOfSet(BlockSpends(s), WorthAt(w, txs));
    BlockSpendsSum(w, txs, s);
  }

  lemma SumMoved<T(!new)>(u: set<T>, spent: set<T>, created: set<T>, f: T -> int)
    requires spent <= u && created !! u
    ensures Sum(u - spent + created, f) == Sum(u, f) - Sum(spent, f) + Sum(created, f)
  {
    SumUnion(u - spent, created, f);
    SumMinus(u, spent, f);
  }

  lemma CreatedAreNew(txs: Txs, s: seq<Tx>)
    requires Fresh(txs, s)
    ensures BlockOutpoints(s) !! Unspent(txs)
  {
    forall o | o in BlockOutpoints(s) ensures o !in Unspent(txs) {
      BlockOutpointsMembers(s, o);
    }
  }

  /** Persisting an acceptable block changes the total of any quantity by exactly
      what its transactions put out minus what they take in. */
  lemma BlockMovesTotal(w: Weight, txs: Txs, height: uint32, s: seq<Tx>)
    requires Sound(txs) && Fresh(txs, s) && Spendable(BlockSpends(s), Unspent(txs))
    ensures Total(w, Store(txs, height, s)) == Total(w, txs) + SumOf(s, Gain(w, txs))
  {
    var all, u := Store(txs, height, s), Unspent(txs);
    StoreContents(txs, height, s);
    UnspentAfterStore(txs, height, s);
    CreatedAreNew(txs, s);
    SumMoved(u, AsSet(BlockSpends(s)), BlockOutpoints(s), WorthAt(w, all));
    SameWorth(w, txs, all, u);
    SpentSum(w, txs, all, s);
    BlockOutpointsSum(w, all, s);
    GainSum(w, txs, s);
  }
}
