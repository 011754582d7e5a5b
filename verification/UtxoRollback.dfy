/** Rolling a block back out of the UTXO index, in both modes. */
module UtxoRollback {
  import opened Bytes
  import opened Types
  import opened Buckets
  import opened Ledger
  import opened UtxoIndex

  // With the referenced transaction's hash: exact in terms of outpoints.

  lemma RemoveOneExact(all: Txs, m: UtxoLists, u: set<Outpoint>, tx: Tx, height: uint32, i: uint16)
    requires Lists(all, m, u) && i < |tx.outputs| && Outpoint(tx.hash, i) in u
    requires all[tx.hash] == TxEntry(tx, height)
    ensures RemoveOne(m, tx, height, i).Ok?
    ensures Lists(all, RemoveOne(m, tx, height, i).value, u - {Outpoint(tx.hash, i)})
  {
    var o := Outpoint(tx.hash, i);
    ListsFind(all, m, u, o);
    var (k, e) := EntryOf(all, o);
    SpliceBag(m[k], Find(m[k], tx.hash, i));
    ListsRemove(all, m, u, o, Splice(m[k], Find(m[k], tx.hash, i)));
  }

  lemma {:induction false} RemoveOutputsExact(all: Txs, m: UtxoLists, u: set<Outpoint>, tx: Tx, height: uint32, i: nat)
    requires Lists(all, m, u) && i <= |tx.outputs|
    requires tx.hash in all && all[tx.hash] == TxEntry(tx, height)
    requires OutpointsFrom(tx, i) <= u
    ensures RemoveOutputs(m, tx, height, i).Ok?
    ensures Lists(all, RemoveOutputs(m, tx, height, i).value, u - OutpointsFrom(tx, i))
    decreases |tx.outputs| - i
  {
    if i == |tx.outputs| {
      assert u - OutpointsFrom(tx, i) == u;
    } else {
      var o := Outpoint(tx.hash, i);
      OutpointsFromStep(tx, i);
      RemoveOneExact(all, m, u, tx, height, i);
      RemoveOutputsExact(all, RemoveOne(m, tx, height, i).value, u - {o}, tx, height, i + 1);
      assert u - {o} - OutpointsFrom(tx, i + 1) == u - OutpointsFrom(tx, i);
    }
  }

  lemma RestoreOneExact(all: Txs, m: UtxoLists, u: set<Outpoint>, tx: Tx, o: Outpoint)
    requires Lists(all, m, u) && IsOutput(all, o) && o !in u
    ensures RestoreOne(Corrected, all, m, tx, o).Ok?
    ensures Lists(all, RestoreOne(Corrected, all, m, tx, o).value, u + {o})
  {
    ListsAdd(all, m, u, o);
  }

  lemma RestoreSplit(u: set<Outpoint>, spends: seq<Outpoint>)
    requires spends != [] && NoDuplicates(spends)
    ensures
      var o, rest := spends[0], spends[1..];
      NoDuplicates(rest) && o !in rest && u + {o} + AsSet(rest) == u + AsSet(spends)
  {
    NoDuplicatesTail(spends);
  }

  lemma {:induction false} RestoreAllExact(all: Txs, m: UtxoLists, u: set<Outpoint>, tx: Tx, spends: seq<Outpoint>)
    requires Lists(all, m, u) && NoDuplicates(spends)
    requires forall o | o in spends :: IsOutput(all, o) && o !in u
    ensures RestoreAll(Corrected, all, m, tx, spends).Ok?
    ensures Lists(all, RestoreAll(Corrected, all, m, tx, spends).value, u + AsSet(spends))
    decreases spends
  {
    if spends == [] {
      assert u + AsSet(spends) == u;
    } else {
      var o, rest := spends[0], spends[1..];
      RestoreOneExact(all, m, u, tx, o);
      RestoreSplit(u, spends);
      RestoreAllExact(all, RestoreOne(Corrected, all, m, tx, o).value, u + {o}, tx, rest);
    }
  }

  /** The block's transactions are stored, its outpoints are in `u` and the
      outpoints it spent are not. */
  ghost predicate Outgoing(all: Txs, u: set<Outpoint>, height: uint32, s: seq<Tx>) {
    && (forall i | 0 <= i < |s| :: s[i].hash in all && all[s[i].hash] == TxEntry(s[i], height))
    && (forall i, j | 0 <= i < j < |s| :: s[i].hash != s[j].hash)
    && BlockOutpoints(s) <= u
    && NoDuplicates(BlockSpends(s))
    && forall o | o in BlockSpends(s) :: IsOutput(all, o) && o !in u
  }

  lemma RollbackTxExact(all: Txs, m: UtxoLists, u: set<Outpoint>, height: uint32, tx: Tx)
    requires Lists(all, m, u) && tx.hash in all && all[tx.hash] == TxEntry(tx, height)
    requires TxOutpoints(tx) <= u && NoDuplicates(tx.Spends())
    requires forall o | o in tx.Spends() :: IsOutput(all, o) && o !in u
    ensures RollbackTx(Corrected, all, m, height, tx).Ok?
    ensures Lists(all, RollbackTx(Corrected, all, m, height, tx).value, u - TxOutpoints(tx) + AsSet(tx.Spends()))
  {
    assert OutpointsFrom(tx, 0) == TxOutpoints(tx);
    RemoveOutputsExact(all, m, u, tx, height, 0);
    RestoreAllExact(all, RemoveOutputs(m, tx, height, 0).value, u - TxOutpoints(tx), tx, tx.Spends());
  }

  lemma OutgoingTail(all: Txs, u: set<Outpoint>, height: uint32, s: seq<Tx>)
    requires s != [] && Outgoing(all, u, height, s)
    ensures NoDuplicates(s[0].Spends())
    ensures TxOutpoints(s[0]) <= u
    ensures forall o | o in s[0].Spends() :: IsOutput(all, o) && o !in u
    ensures Outgoing(all, u - TxOutpoints(s[0]) + AsSet(s[0].Spends()), height, s[1..])
  {
    var u' := u - TxOutpoints(s[0]) + AsSet(s[0].Spends());
    SpendableSplit(s[0].Spends(), BlockSpends(s[1..]), AsSet(BlockSpends(s)));
    assert forall i | 0 <= i < |s| - 1 :: s[1..][i] == s[i + 1];
    forall o | o in BlockOutpoints(s[1..]) ensures o in u' {
      BlockOutpointsMembers(s[1..], o);
    }
    assert forall o | o in BlockSpends(s[1..]) :: o in BlockSpends(s) && o !in s[0].Spends();
  }

  lemma RestoredStep(u: set<Outpoint>, s: seq<Tx>)
    requires s != [] && BlockOutpoints(s) !! AsSet(s[0].Spends())
    ensures u - TxOutpoints(s[0]) + AsSet(s[0].Spends()) - BlockOutpoints(s[1..]) + AsSet(BlockSpends(s[1..]))
            == u - BlockOutpoints(s) + AsSet(BlockSpends(s))
  {
    assert AsSet(BlockSpends(s)) == AsSet(s[0].Spends()) + AsSet(BlockSpends(s[1..]));
  }

  lemma {:induction false} RollbackTxsExact(all: Txs, m: UtxoLists, u: set<Outpoint>, height: uint32, s: seq<Tx>)
    requires Lists(all, m, u) && Outgoing(all, u, height, s)
    ensures RollbackTxs(Corrected, all, m, height, s).Ok?
    ensures Lists(all, RollbackTxs(Corrected, all, m, height, s).value, u - BlockOutpoints(s) + AsSet(BlockSpends(s)))
    decreases s
  {
    if s == [] {
      assert u - BlockOutpoints(s) + AsSet(BlockSpends(s)) == u;
    } else {
      OutgoingTail(all, u, height, s);
      RestoredStep(u, s);
      RollbackTxExact(all, m, u, height, s[0]);
      RollbackTxsExact(all, RollbackTx(Corrected, all, m, height, s[0]).value,
                       u - TxOutpoints(s[0]) + AsSet(s[0].Spends()), height, s[1..]);
    }
  }

  // With the spender's hash: the entries that come back are the spender's.

  /** What the line as written lists for an input: the entry that was spent, in its
      own place, but under the spender's hash. */
  ghost function StrayOf(all: Txs, t: Uint256, o: Outpoint): (BucketKey, Utxo)
    requires IsOutput(all, o)
  {
    var (k, e) := EntryOf(all, o);
    (k, e.(txid := t))
  }

  ghost function Strays(all: Txs, t: Uint256, spends: seq<Outpoint>): seq<(BucketKey, Utxo)>
    requires forall o | o in spends :: IsOutput(all, o)
  {
    if spends == [] then [] else [StrayOf(all, t, spends[0])] + Strays(all, t, spends[1..])
  }

  ghost function BlockStrays(all: Txs, s: seq<Tx>): seq<(BucketKey, Utxo)>
    requires forall o | o in BlockSpends(s) :: IsOutput(all, o)
  {
    if s == [] then []
    else Strays(all, s[0].hash, s[0].Spends()) + BlockStrays(all, s[1..])
  }

  /** `m` lists exactly the entries of `u` and beside them the pairs of `extra`. */
  ghost predicate ListsBeside(all: Txs, m: UtxoLists, u: set<Outpoint>, extra: multiset<(BucketKey, Utxo)>) {
    && Keyed(all)
    && (forall o | o in u :: IsOutput(all, o))
    && HoldsBeside(m, Entries(all, u), extra)
  }

  /** No entry beside the exact ones is under one of these hashes. */
  ghost predicate Apart(extra: multiset<(BucketKey, Utxo)>, hashes: set<Uint256>) {
    forall x | x in extra :: x.1.txid !in hashes
  }

  /** The entry found for an outpoint is still its own. */
  lemma FindBeside(all: Txs, m: UtxoLists, u: set<Outpoint>, extra: multiset<(BucketKey, Utxo)>, o: Outpoint)
    requires ListsBeside(all, m, u, extra) && o in u && Apart(extra, {o.txid})
    ensures
      var (k, e) := EntryOf(all, o);
      var p := Find(Bucket(m, k), o.txid, o.index);
      p < |Bucket(m, k)| && Bucket(m, k)[p] == e
  {
    var (k, e) := EntryOf(all, o);
    var p := Find(Bucket(m, k), o.txid, o.index);
    assert (k, e) in Entries(all, u);
    BesideMember(m, Entries(all, u), extra, k, e);
    var found := Bucket(m, k)[p];
    BesideMember(m, Entries(all, u), extra, k, found);
    assert (k, found) !in extra;
    var o' :| o' in u && EntryOf(all, o') == (k, found);
    EntryInjective(all, o, o');
  }

  lemma RemoveOneBeside(all: Txs, m: UtxoLists, u: set<Outpoint>, extra: multiset<(BucketKey, Utxo)>, tx: Tx, height: uint32, i: uint16)
    requires ListsBeside(all, m, u, extra) && Apart(extra, {tx.hash})
    requires i < |tx.outputs| && Outpoint(tx.hash, i) in u && all[tx.hash] == TxEntry(tx, height)
    ensures RemoveOne(m, tx, height, i).Ok?
    ensures ListsBeside(all, RemoveOne(m, tx, height, i).value, u - {Outpoint(tx.hash, i)}, extra)
  {
    var o := Outpoint(tx.hash, i);
    FindBeside(all, m, u, extra, o);
    var (k, e) := EntryOf(all, o);
    var p := Find(m[k], tx.hash, i);
    SpliceBag(m[k], p);
    BesideRemove(m, Entries(all, u), extra, k, p, Splice(m[k], p));
    EntriesRemove(all, u, o);
  }

  lemma RemoveLeft(u: set<Outpoint>, tx: Tx, i: nat)
    requires i < |tx.outputs| <= 0x1_0000 && OutpointsFrom(tx, i) <= u
    ensures
      var o := Outpoint(tx.hash, i);
      && o in u && OutpointsFrom(tx, i + 1) <= u - {o}
      && u - {o} - OutpointsFrom(tx, i + 1) == u - OutpointsFrom(tx, i)
  {
    OutpointsFromStep(tx, i);
  }

  lemma {:induction false} RemoveOutputsBeside(all: Txs, m: UtxoLists, u: set<Outpoint>, extra: multiset<(BucketKey, Utxo)>, tx: Tx, height: uint32, i: nat)
    requires ListsBeside(all, m, u, extra) && Apart(extra, {tx.hash}) && i <= |tx.outputs|
    requires tx.hash in all && all[tx.hash] == TxEntry(tx, height)
    requires OutpointsFrom(tx, i) <= u
    ensures RemoveOutputs(m, tx, height, i).Ok?
    ensures ListsBeside(all, RemoveOutputs(m, tx, height, i).value, u - OutpointsFrom(tx, i), extra)
    decreases |tx.outputs| - i
  {
    if i == |tx.outputs| {
      assert u - OutpointsFrom(tx, i) == u;
    } else {
      RemoveLeft(u, tx, i);
      RemoveOneBeside(all, m, u, extra, tx, height, i);
      RemoveOutputsBeside(all, RemoveOne(m, tx, height, i).value, u - {Outpoint(tx.hash, i)}, extra, tx, height, i + 1);
    }
  }

  lemma RestoreOneBeside(all: Txs, m: UtxoLists, u: set<Outpoint>, extra: multiset<(BucketKey, Utxo)>, tx: Tx, o: Outpoint)
    requires ListsBeside(all, m, u, extra) && IsOutput(all, o)
    ensures RestoreOne(AsWritten, all, m, tx, o).Ok?
    ensures ListsBeside(all, RestoreOne(AsWritten, all, m, tx, o).value, u, extra + multiset{StrayOf(all, tx.hash, o)})
  {
    var (k, e) := StrayOf(all, tx.hash, o);
    RestorePlace(AsWritten, all, m, tx, o);
    BesideAdd(m, Entries(all, u), extra, k, e);
  }

  lemma CountHead<T>(extra: multiset<T>, x: T, rest: seq<T>)
    ensures extra + multiset{x} + multiset(rest) == extra + multiset([x] + rest)
  {
  }

  /** The operation succeeds with such lists. */
  ghost predicate GivesBeside(all: Txs, r: Result<UtxoLists>, u: set<Outpoint>, extra: multiset<(BucketKey, Utxo)>) {
    r.Ok? && ListsBeside(all, r.value, u, extra)
  }

  lemma RestoreAllStep(all: Txs, m: UtxoLists, tx: Tx, spends: seq<Outpoint>)
    requires spends != [] && RestoreOne(AsWritten, all, m, tx, spends[0]).Ok?
    ensures RestoreAll(AsWritten, all, m, tx, spends)
            == RestoreAll(AsWritten, all, RestoreOne(AsWritten, all, m, tx, spends[0]).value, tx, spends[1..])
  {
  }

  lemma {:induction false} RestoreAllBeside(all: Txs, m: UtxoLists, u: set<Outpoint>, extra: multiset<(BucketKey, Utxo)>, tx: Tx, spends: seq<Outpoint>)
    requires ListsBeside(all, m, u, extra) && forall o | o in spends :: IsOutput(all, o)
    ensures GivesBeside(all, RestoreAll(AsWritten, all, m, tx, spends), u, extra + multiset(Strays(all, tx.hash, spends)))
    decreases spends
  {
    if spends == [] {
      assert extra + multiset(Strays(all, tx.hash, spends)) == extra;
    } else {
      var o, rest := spends[0], spends[1..];
      var extra' := extra + multiset{StrayOf(all, tx.hash, o)};
      RestoreOneBeside(all, m, u, extra, tx, o);
      var next := RestoreOne(AsWritten, all, m, tx, o).value;
      RestoreAllStep(all, m, tx, spends);
      RestoreAllBeside(all, next, u, extra', tx, rest);
      CountHead(extra, StrayOf(all, tx.hash, o), Strays(all, tx.hash, rest));
    }
  }

  lemma {:induction false} StraysOwn(all: Txs, t: Uint256, spends: seq<Outpoint>)
    requires forall o | o in spends :: IsOutput(all, o)
    ensures forall x | x in Strays(all, t, spends) :: x.1.txid == t
    decreases spends
  {
    if spends != [] {
      StraysOwn(all, t, spends[1..]);
    }
  }

  /** The block is stored, its outpoints are in `u`, and what it spends is stored. */
  ghost predicate Leaving(all: Txs, u: set<Outpoint>, height: uint32, s: seq<Tx>) {
    && (forall i | 0 <= i < |s| :: s[i].hash in all && all[s[i].hash] == TxEntry(s[i], height))
    && (forall i, j | 0 <= i < j < |s| :: s[i].hash != s[j].hash)
    && BlockOutpoints(s) <= u
    && forall o | o in BlockSpends(s) :: IsOutput(all, o)
  }

  lemma TailHashes(s: seq<Tx>)
    requires s != [] && forall i, j | 0 <= i < j < |s| :: s[i].hash != s[j].hash
    ensures s[0].hash !in Hashes(s[1..]) && Hashes(s) == {s[0].hash} + Hashes(s[1..])
  {
    assert forall i | 0 <= i < |s| - 1 :: s[1..][i] == s[i + 1];
    forall i | 0 <= i < |s| ensures s[i].hash in {s[0].hash} + Hashes(s[1..]) {
      if i > 0 {
        assert s[1..][i - 1] == s[i];
      }
    }
  }

  lemma OutpointsApart(s: seq<Tx>)
    requires s != [] && forall i, j | 0 <= i < j < |s| :: s[i].hash != s[j].hash
    ensures TxOutpoints(s[0]) !! BlockOutpoints(s[1..])
  {
    assert forall i | 0 <= i < |s| - 1 :: s[1..][i] == s[i + 1];
    forall o | o in BlockOutpoints(s[1..]) ensures o !in TxOutpoints(s[0]) {
      BlockOutpointsMembers(s[1..], o);
    }
  }

  lemma LeavingTail(all: Txs, u: set<Outpoint>, height: uint32, s: seq<Tx>)
    requires s != [] && Leaving(all, u, height, s)
    ensures TxOutpoints(s[0]) <= u && Leaving(all, u - TxOutpoints(s[0]), height, s[1..])
    ensures forall o | o in s[0].Spends() :: IsOutput(all, o)
    ensures u - TxOutpoints(s[0]) - BlockOutpoints(s[1..]) == u - BlockOutpoints(s)
  {
    OutpointsApart(s);
    assert forall i | 0 <= i < |s| - 1 :: s[1..][i] == s[i + 1];
    assert forall o | o in BlockSpends(s[1..]) :: o in BlockSpends(s);
    assert forall o | o in s[0].Spends() :: o in BlockSpends(s);
  }

  lemma RollbackTxBeside(all: Txs, m: UtxoLists, u: set<Outpoint>, extra: multiset<(BucketKey, Utxo)>, height: uint32, tx: Tx)
    requires ListsBeside(all, m, u, extra) && Apart(extra, {tx.hash})
    requires tx.hash in all && all[tx.hash] == TxEntry(tx, height) && TxOutpoints(tx) <= u
    requires forall o | o in tx.Spends() :: IsOutput(all, o)
    ensures RollbackTx(AsWritten, all, m, height, tx).Ok?
    ensures ListsBeside(all, RollbackTx(AsWritten, all, m, height, tx).value, u - TxOutpoints(tx),
                        extra + multiset(Strays(all, tx.hash, tx.Spends())))
  {
    assert OutpointsFrom(tx, 0) == TxOutpoints(tx);
    RemoveOutputsBeside(all, m, u, extra, tx, height, 0);
    RestoreAllBeside(all, RemoveOutputs(m, tx, height, 0).value, u - TxOutpoints(tx), extra, tx, tx.Spends());
  }

  lemma ApartStep(all: Txs, extra: multiset<(BucketKey, Utxo)>, s: seq<Tx>)
    requires s != [] && s[0].hash !in Hashes(s[1..]) && Hashes(s) == {s[0].hash} + Hashes(s[1..])
    requires Apart(extra, Hashes(s)) && forall o | o in s[0].Spends() :: IsOutput(all, o)
    ensures Apart(extra, {s[0].hash})
    ensures Apart(extra + multiset(Strays(all, s[0].hash, s[0].Spends())), Hashes(s[1..]))
  {
    StraysOwn(all, s[0].hash, s[0].Spends());
  }

  lemma BlockStraysStep(all: Txs, extra: multiset<(BucketKey, Utxo)>, s: seq<Tx>)
    requires s != [] && forall o | o in BlockSpends(s) :: IsOutput(all, o)
    ensures extra + multiset(Strays(all, s[0].hash, s[0].Spends())) + multiset(BlockStrays(all, s[1..]))
            == extra + multiset(BlockStrays(all, s))
  {
  }

  /** Rolling a block back as written leaves the lists exactly without the block's
      outpoints, and one stray entry for each of its spends. */
  lemma {:induction false} RollbackTxsBeside(all: Txs, m: UtxoLists, u: set<Outpoint>, extra: multiset<(BucketKey, Utxo)>, height: uint32, s: seq<Tx>)
    requires ListsBeside(all, m, u, extra) && Leaving(all, u, height, s) && Apart(extra, Hashes(s))
    ensures RollbackTxs(AsWritten, all, m, height, s).Ok?
    ensures ListsBeside(all, RollbackTxs(AsWritten, all, m, height, s).value, u - BlockOutpoints(s), extra + multiset(BlockStrays(all, s)))
    decreases s
  {
    if s == [] {
      assert u - BlockOutpoints(s) == u && extra + multiset(BlockStrays(all, s)) == extra;
    } else {
      LeavingTail(all, u, height, s);
      TailHashes(s);
      ApartStep(all, extra, s);
      RollbackTxBeside(all, m, u, extra, height, s[0]);
      BlockStraysStep(all, extra, s);
      RollbackTxsBeside(all, RollbackTx(AsWritten, all, m, height, s[0]).value, u - TxOutpoints(s[0]),
                        extra + multiset(Strays(all, s[0].hash, s[0].Spends())), height, s[1..]);
    }
  }

  /** There is one for each spend, under the hash of one of the block's transactions. */
  lemma {:induction false} BlockStraysSome(all: Txs, s: seq<Tx>)
    requires forall o | o in BlockSpends(s) :: IsOutput(all, o)
    ensures |BlockStrays(all, s)| == |BlockSpends(s)|
    ensures forall x | x in BlockStrays(all, s) :: exists n | 0 <= n < |s| :: x.1.txid == s[n].hash
    decreases s
  {
    if s != [] {
      var own, rest := Strays(all, s[0].hash, s[0].Spends()), BlockStrays(all, s[1..]);
      BlockStraysSome(all, s[1..]);
      StraysOwn(all, s[0].hash, s[0].Spends());
      StraysCount(all, s[0].hash, s[0].Spends());
      forall x: (BucketKey, Utxo) | x in own + rest ensures exists n | 0 <= n < |s| :: x.1.txid == s[n].hash {
        if x in own {
          assert x.1.txid == s[0].hash;
        } else {
          var n :| 0 <= n < |s[1..]| && x.1.txid == s[1..][n].hash;
          assert s[1..][n] == s[n + 1];
        }
      }
    }
  }

  lemma {:induction false} StraysCount(all: Txs, t: Uint256, spends: seq<Outpoint>)
    requires forall o | o in spends :: IsOutput(all, o)
    ensures |Strays(all, t, spends)| == |spends|
    ensures forall j | 0 <= j < |spends| :: Strays(all, t, spends)[j] == StrayOf(all, t, spends[j])
    decreases spends
  {
    if spends != [] {
      StraysCount(all, t, spends[1..]);
    }
  }

  /** Without inputs to restore the two modes are the same code. */
  lemma {:induction false} ModesAgreeWithoutSpends(all: Txs, m: UtxoLists, height: uint32, s: seq<Tx>)
    requires BlockSpends(s) == []
    ensures RollbackTxs(AsWritten, all, m, height, s) == RollbackTxs(Corrected, all, m, height, s)
    decreases s
  {
    if s != [] {
      assert s[0].Spends() == [] && BlockSpends(s[1..]) == [];
      if RemoveOutputs(m, s[0], height, 0).Ok? {
        ModesAgreeWithoutSpends(all, RemoveOutputs(m, s[0], height, 0).value, height, s[1..]);
      }
    }
  }
}
