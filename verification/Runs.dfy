/** Whole runs: blocks are offered to the store and the latest one is rolled
    back, in any order. */
module Runs {
  import opened Bytes
  import opened Types
  import opened Buckets
  import opened Ledger
  import opened UtxoIndex
  import opened R = Registry
  import opened ChainDb
  import opened RoundTrip

  datatype Step = Extend(block: Block) | Undo

  /** The store and the chain of blocks it should stand for. */
  datatype System = System(db: Db, chain: seq<Block>)

  function Last<T>(s: seq<T>): T
    requires s != []
  {
    s[|s| - 1]
  }

  function Front<T>(s: seq<T>): seq<T>
    requires s != []
  {
    s[..|s| - 1]
  }

  /** A failing operation drops its batch and changes nothing. */
  function Take(mode: RestoredHash, s: System, step: Step): System {
    match step
    case Extend(b) =>
      (match Persist(s.db, b)
       case Ok(db) => System(db, s.chain + [b])
       case Err(_) => s)
    case Undo =>
      if s.chain == [] then s
      else
        match Rollback(mode, s.db, Last(s.chain))
        case Ok(db) => System(db, Front(s.chain))
        case Err(_) => s
  }

  function Run(mode: RestoredHash, genesis: Tx, steps: seq<Step>): System
    requires IsGenesis(genesis)
  {
    if steps == [] then System(InitDb(genesis), [])
    else Take(mode, Run(mode, genesis, Front(steps)), Last(steps))
  }

  /** The store after persisting just the blocks of `chain` from genesis. */
  function Replay(genesis: Tx, chain: seq<Block>): Db
    requires IsGenesis(genesis)
  {
    if chain == [] then InitDb(genesis)
    else
      var db := Replay(genesis, Front(chain));
      match Persist(db, Last(chain))
      case Ok(db') => db'
      case Err(_) => db
  }

  function TipHeight(chain: seq<Block>): uint32 {
    if chain == [] then 0 else Last(chain).height
  }

  /** What the rest of the node checks before it offers a block: new transaction
      hashes and a greater height. */
  ghost predicate Offered(s: System, b: Block) {
    Fresh(s.db.reg.txs, b.txs) && b.height > TipHeight(s.chain)
  }

  ghost predicate Legal(mode: RestoredHash, genesis: Tx, steps: seq<Step>)
    requires IsGenesis(genesis)
  {
    steps == [] ||
    (&& Legal(mode, genesis, Front(steps))
     && (Last(steps).Extend? ==> Offered(Run(mode, genesis, Front(steps)), Last(steps).block)))
  }

  /** Every block of the chain is accepted by the replay of the blocks before it. */
  ghost predicate ChainOk(genesis: Tx, chain: seq<Block>)
    requires IsGenesis(genesis)
  {
    chain == [] ||
    (&& ChainOk(genesis, Front(chain))
     && Offered(System(Replay(genesis, Front(chain)), Front(chain)), Last(chain))
     && Persist(Replay(genesis, Front(chain)), Last(chain)).Ok?)
  }

  /** The store is what its chain says, up to list order. */
  ghost predicate InStep(genesis: Tx, s: System)
    requires IsGenesis(genesis)
  {
    ChainOk(genesis, s.chain) && SameDb(Replay(genesis, s.chain), s.db)
  }

  lemma {:induction false} ReplayValid(genesis: Tx, chain: seq<Block>)
    requires IsGenesis(genesis) && ChainOk(genesis, chain)
    ensures Valid(Replay(genesis, chain))
  {
    if chain == [] {
      InitValid(genesis);
    } else {
      ReplayValid(genesis, Front(chain));
      ChainDb.PersistExact(Replay(genesis, Front(chain)), Last(chain));
    }
  }

  /** Accepting a block does not depend on list order, and neither does the result. */
  lemma PersistRespectsOrder(db: Db, db': Db, b: Block)
    requires Valid(db) && SameDb(db, db') && Fresh(db.reg.txs, b.txs)
    ensures Persist(db, b).Ok? <==> Persist(db', b).Ok?
    ensures Persist(db, b).Ok? ==> SameDb(Persist(db, b).value, Persist(db', b).value)
  {
    SameDbValid(db, db');
    ChainDb.PersistExact(db, b);
    ChainDb.PersistExact(db', b);
    if Persist(db, b).Ok? {
      RecordsDetermine(Persist(db, b).value, Persist(db', b).value);
    }
  }

  lemma ExtendKeepsStep(mode: RestoredHash, genesis: Tx, s: System, b: Block)
    requires IsGenesis(genesis) && InStep(genesis, s) && Offered(s, b)
    ensures InStep(genesis, Take(mode, s, Extend(b)))
  {
    ReplayValid(genesis, s.chain);
    PersistRespectsOrder(Replay(genesis, s.chain), s.db, b);
    assert Front(s.chain + [b]) == s.chain && Last(s.chain + [b]) == b;
  }

  /** An undone block leaves the store in step exactly when it is restorable on
      the blocks before it. */
  lemma UndoExact(mode: RestoredHash, genesis: Tx, s: System)
    requires IsGenesis(genesis) && InStep(genesis, s) && s.chain != []
    ensures Take(mode, s, Undo).chain == Front(s.chain)
    ensures InStep(genesis, Take(mode, s, Undo)) <==> Restorable(mode, Replay(genesis, Front(s.chain)), Last(s.chain))
  {
    var before := Replay(genesis, Front(s.chain));
    ReplayValid(genesis, Front(s.chain));
    RoundTripExact(mode, before, Last(s.chain), s.db);
  }

  /** After every prefix of the run the store equals the replay of its chain. */
  ghost predicate PathIndependent(mode: RestoredHash, genesis: Tx, steps: seq<Step>)
    requires IsGenesis(genesis)
  {
    && (steps != [] ==> PathIndependent(mode, genesis, Front(steps)))
    && SameDb(Replay(genesis, Run(mode, genesis, steps).chain), Run(mode, genesis, steps).db)
  }

  /** Every block the run undoes is restorable on the blocks before it. */
  ghost predicate UndoesRestorable(mode: RestoredHash, genesis: Tx, steps: seq<Step>)
    requires IsGenesis(genesis)
  {
    steps == [] ||
    (&& UndoesRestorable(mode, genesis, Front(steps))
     && var chain := Run(mode, genesis, Front(steps)).chain;
        (Last(steps).Undo? && chain != [] ==> Restorable(mode, Replay(genesis, Front(chain)), Last(chain))))
  }

  lemma {:induction false} PathIndependenceByStep(mode: RestoredHash, genesis: Tx, steps: seq<Step>)
    requires IsGenesis(genesis) && Legal(mode, genesis, steps)
    ensures PathIndependent(mode, genesis, steps) <==> UndoesRestorable(mode, genesis, steps)
    ensures PathIndependent(mode, genesis, steps) ==> InStep(genesis, Run(mode, genesis, steps))
    decreases |steps|
  {
    var s := Run(mode, genesis, steps);
    if steps == [] {
      InitValid(genesis);
      RecordsDetermine(InitDb(genesis), InitDb(genesis));
    } else {
      PathIndependenceByStep(mode, genesis, Front(steps));
      var s0 := Run(mode, genesis, Front(steps));
      if PathIndependent(mode, genesis, Front(steps)) {
        match Last(steps) {
          case Extend(b) =>
            ExtendKeepsStep(mode, genesis, s0, b);
          case Undo =>
            if s0.chain != [] {
              UndoExact(mode, genesis, s0);
              assert ChainOk(genesis, Front(s0.chain));
            }
        }
      }
    }
  }

  /** Main theorem on runs: all reachable states are those of their chains exactly
      on the runs that undo only restorable blocks. */
  lemma {:induction false} PathIndependenceExact(mode: RestoredHash, genesis: Tx, steps: seq<Step>)
    requires IsGenesis(genesis) && Legal(mode, genesis, steps)
    ensures PathIndependent(mode, genesis, steps) <==> UndoesRestorable(mode, genesis, steps)
  {
    PathIndependenceByStep(mode, genesis, steps);
  }

  // Exactness of the indexes does not need the records to come back.

  /** The store is an exact index of the transactions of its chain. */
  ghost predicate OnChain(genesis: Tx, s: System)
    requires IsGenesis(genesis)
  {
    ChainOk(genesis, s.chain) && Valid(s.db) && s.db.reg.txs == Replay(genesis, s.chain).reg.txs
  }

  lemma ExtendKeepsChain(mode: RestoredHash, genesis: Tx, s: System, b: Block)
    requires IsGenesis(genesis) && OnChain(genesis, s) && Offered(s, b)
    ensures OnChain(genesis, Take(mode, s, Extend(b)))
  {
    ReplayValid(genesis, s.chain);
    ChainDb.PersistExact(s.db, b);
    ChainDb.PersistExact(Replay(genesis, s.chain), b);
    assert Front(s.chain + [b]) == s.chain && Last(s.chain + [b]) == b;
  }

  lemma UndoValidExact(mode: RestoredHash, genesis: Tx, s: System)
    requires IsGenesis(genesis) && OnChain(genesis, s) && s.chain != []
    ensures Valid(Take(mode, s, Undo).db) <==> mode.Corrected? || BlockSpends(Last(s.chain).txs) == []
    ensures Valid(Take(mode, s, Undo).db) ==> OnChain(genesis, Take(mode, s, Undo))
  {
    var before, b := Replay(genesis, Front(s.chain)), Last(s.chain);
    ReplayValid(genesis, Front(s.chain));
    ChainDb.PersistExact(before, b);
    RollbackValidExact(mode, before.reg.txs, b, s.db);
  }

  /** After every prefix of the run both indexes are exact. */
  ghost predicate ExactThroughout(mode: RestoredHash, genesis: Tx, steps: seq<Step>)
    requires IsGenesis(genesis)
  {
    && (steps != [] ==> ExactThroughout(mode, genesis, Front(steps)))
    && Valid(Run(mode, genesis, steps).db)
  }

  /** No step of the run undoes a block that spends something. */
  ghost predicate UndoesNoSpend(mode: RestoredHash, genesis: Tx, steps: seq<Step>)
    requires IsGenesis(genesis)
  {
    steps == [] ||
    (&& UndoesNoSpend(mode, genesis, Front(steps))
     && var chain := Run(mode, genesis, Front(steps)).chain;
        (Last(steps).Undo? && chain != [] ==> BlockSpends(Last(chain).txs) == []))
  }

  lemma {:induction false} ExactByStep(mode: RestoredHash, genesis: Tx, steps: seq<Step>)
    requires IsGenesis(genesis) && Legal(mode, genesis, steps)
    ensures ExactThroughout(mode, genesis, steps) <==> mode.Corrected? || UndoesNoSpend(mode, genesis, steps)
    ensures ExactThroughout(mode, genesis, steps) ==> OnChain(genesis, Run(mode, genesis, steps))
    decreases |steps|
  {
    if steps == [] {
      InitValid(genesis);
    } else {
      ExactByStep(mode, genesis, Front(steps));
      var s := Run(mode, genesis, Front(steps));
      if ExactThroughout(mode, genesis, Front(steps)) {
        match Last(steps) {
          case Extend(b) =>
            ExtendKeepsChain(mode, genesis, s, b);
          case Undo =>
            if s.chain != [] {
              UndoValidExact(mode, genesis, s);
            }
        }
      }
    }
  }

  /** Over all legal runs: both indexes stay exactly the unspent outpoints of
      their chain's transactions exactly when the referenced hash is restored or
      no spend is undone. */
  lemma {:induction false} ReachableExact(mode: RestoredHash, genesis: Tx, steps: seq<Step>)
    requires IsGenesis(genesis) && Legal(mode, genesis, steps)
    ensures ExactThroughout(mode, genesis, steps) <==> mode.Corrected? || UndoesNoSpend(mode, genesis, steps)
  {
    ExactByStep(mode, genesis, steps);
  }

  /** On those runs no outpoint is ever spent by two stored inputs. */
  lemma {:induction false} NeverSpentTwice(mode: RestoredHash, genesis: Tx, steps: seq<Step>)
    requires IsGenesis(genesis) && Legal(mode, genesis, steps)
    requires mode.Corrected? || UndoesNoSpend(mode, genesis, steps)
    ensures SpentOnce(Run(mode, genesis, steps).db.reg.txs)
  {
    ExactByStep(mode, genesis, steps);
  }

  /** The two indexes agree: an output index is listed under a transaction hash
      exactly when some bucket has the entry, and neither list has duplicates. */
  lemma IndexesAgree(db: Db, t: Uint256, i: uint16)
    requires Valid(db)
    ensures i in Bucket(db.unspent, t) <==> exists k, e :: e in Bucket(db.utxos, k) && e.txid == t && e.index == i
    ensures multiset(Bucket(db.unspent, t))[i] <= 1
    ensures forall k, e :: multiset(Bucket(db.utxos, k))[e] <= 1
  {
    var txs, o := db.reg.txs, Outpoint(t, i);
    var u := Unspent(txs);
    HoldsMember(db.unspent, Slots(u), t, i);
    assert (t, i) in Slots(u) <==> o in u;
    if o in u {
      var (k, e) := EntryOf(txs, o);
      assert (k, e) in Entries(txs, u);
      HoldsMember(db.utxos, Entries(txs, u), k, e);
    }
    forall k, e | e in Bucket(db.utxos, k) && e.txid == t && e.index == i ensures o in u {
      HoldsMember(db.utxos, Entries(txs, u), k, e);
      var o' :| o' in u && EntryOf(txs, o') == (k, e);
    }
  }

  /** Outputs are stored at heights from 1 to the tip's. */
  lemma {:induction false} HeightsBelowTip(genesis: Tx, chain: seq<Block>)
    requires IsGenesis(genesis) && ChainOk(genesis, chain)
    ensures
      var txs := Replay(genesis, chain).reg.txs;
      forall o | IsOutput(txs, o) :: 1 <= txs[o.txid].height <= TipHeight(chain)
    decreases |chain|
  {
    if chain != [] {
      HeightsBelowTip(genesis, Front(chain));
      var db, b, txs := Replay(genesis, Front(chain)), Last(chain), Replay(genesis, chain).reg.txs;
      R.PersistExact(db.reg, b.height, b.txs);
      StoreContents(db.reg.txs, b.height, b.txs);
      forall o | IsOutput(txs, o) ensures 1 <= txs[o.txid].height <= TipHeight(chain) {
        if o.txid in db.reg.txs {
          assert IsOutput(db.reg.txs, o);
        }
      }
    }
  }
}
