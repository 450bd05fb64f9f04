/** The lock table and the table of active transactions. */
module Transactions {
  import opened Model

  datatype TupleKey = TupleKey(tableId: nat, first: RID)

  datatype IsolationLevel = READ_COMMITTED | SNAPSHOT_ISOLATION

  datatype Outcome = Done | NotFound | NotActive | NameClash

  /** An entry of the transaction table, which owns it. */
  datatype Transaction = Transaction(
    id: TxID, isolation: IsolationLevel, firstRids: set<TupleKey>, snapshot: set<TxID>, state: TxState)

  /** The table after `tx` noted a tuple in its write set. */
  function Noting(active: map<TxID, Transaction>, tx: TxID, key: TupleKey): map<TxID, Transaction>
    requires tx in active
  {
    active[tx := active[tx].(firstRids := active[tx].firstRids + {key})]
  }

  class LockManager {
    var lockTable: map<TupleKey, TxID>

    constructor ()
      ensures lockTable == map[]
    {
      lockTable := map[];
    }

    /**
     * One attempt of the retry loop: granted when the tuple is free or already ours. The source repeats
     * failed attempts until it gives up and aborts the transaction.
     */
    method TryAcquireLock(tm: TransactionManager, tx: TxID, tableId: nat, first: RID) returns (granted: bool)
      requires tm.Valid() && tm.TwoPhase(this) && tx in tm.active
      modifies this, tm`active
      ensures tm.Valid() && tm.TwoPhase(this) && tm.ActiveSet() == old(tm.ActiveSet()) && tx in tm.active
      ensures granted <==> TupleKey(tableId, first) !in old(lockTable) || old(lockTable[TupleKey(tableId, first)]) == tx
      ensures granted ==> lockTable == old(lockTable)[TupleKey(tableId, first) := tx]
      ensures !granted ==>
        lockTable == old(lockTable) && TupleKey(tableId, first) in lockTable
          && lockTable[TupleKey(tableId, first)] != tx
      ensures tm.active ==
        if TupleKey(tableId, first) in old(lockTable) then old(tm.active)
          else Noting(old(tm.active), tx, TupleKey(tableId, first))
    {
      var key := TupleKey(tableId, first);
      if key !in lockTable {
        tm.active := Noting(tm.active, tx, key);
        lockTable := lockTable[key := tx];
        return true;
      }
      return lockTable[key] == tx;
    }

    method ReleaseAllLocks(tx: Transaction)
      modifies this
      ensures lockTable == ReleaseAll(old(lockTable), tx.id, tx.firstRids)
      ensures forall key :: key in lockTable <==>
        key in old(lockTable) && (key !in tx.firstRids || old(lockTable[key]) != tx.id)
      ensures forall key :: key in lockTable ==> lockTable[key] == old(lockTable[key])
    {
      var toRelease, table := tx.firstRids, lockTable;
      while toRelease != {}
        invariant toRelease <= tx.firstRids
        invariant lockTable == ReleaseAll(table, tx.id, tx.firstRids - toRelease)
        decreases toRelease
      {
        var key :| key in toRelease;
        if key in lockTable && lockTable[key] == tx.id {
          lockTable := lockTable - {key};
        }
        toRelease := toRelease - {key};
      }
      assert tx.firstRids - {} == tx.firstRids;
    }
  }

  class TransactionManager {
    var active: map<TxID, Transaction>
    var transactionCount: nat

    ghost predicate Valid()
      reads this
    {
      && transactionCount > 0
      && (forall t :: t in active ==> active[t].id == t && 0 < t < transactionCount)
    }

    /** Strict two-phase locking: every lock belongs to a listed transaction that will release it. */
    ghost predicate TwoPhase(lm: LockManager)
      reads this, lm
    {
      forall key :: key in lm.lockTable ==> lm.lockTable[key] in active && key in active[lm.lockTable[key]].firstRids
    }

    /** The transactions `get_states` reports as ACTIVE. */
    function ActiveSet(): set<TxID>
      reads this
    {
      set t | t in active && active[t].state == ACTIVE
    }

    constructor ()
      ensures Valid() && active == map[] && transactionCount == 1
    {
      active := map[];
      transactionCount := 1;
    }

    method StartTransaction(isolation: IsolationLevel, ghost lm: LockManager) returns (tx: TxID)
      requires Valid() && TwoPhase(lm)
      modifies this
      ensures Valid() && TwoPhase(lm)
      ensures tx == old(transactionCount) && transactionCount == tx + 1 && tx !in old(active)
      ensures active == old(active)[tx :=
        Transaction(tx, isolation, {}, if isolation == SNAPSHOT_ISOLATION then old(ActiveSet()) else {}, ACTIVE)]
      ensures ActiveSet() == old(ActiveSet()) + {tx}
    {
      tx := transactionCount;
      transactionCount := transactionCount + 1;
      var snapshot: set<TxID> := {};
      if isolation == SNAPSHOT_ISOLATION {
        var rest := active.Keys;
        while rest != {}
          invariant rest <= active.Keys && active == old(active)
          invariant snapshot == set u | u in active.Keys - rest && active[u].state == ACTIVE
          decreases rest
        {
          var u :| u in rest;
          if active[u].state != COMMITTED {
            snapshot := snapshot + {u};
          }
          rest := rest - {u};
        }
        assert snapshot == old(ActiveSet());
      }
      active := active[tx := Transaction(tx, isolation, {}, snapshot, ACTIVE)];
    }

    /** A transaction that is not listed counts as committed. */
    method GetStates(a: TxID, b: TxID) returns (stateA: TxState, stateB: TxState)
      ensures stateA == ACTIVE <==> a in ActiveSet()
      ensures stateB == ACTIVE <==> b in ActiveSet()
    {
      stateA := if a in active then active[a].state else COMMITTED;
      stateB := if b in active then active[b].state else COMMITTED;
    }

    method AddToWriteSet(tableId: nat, rid: RID, tx: TxID)
      requires tx in active && Valid()
      modifies `active
      ensures active == Noting(old(active), tx, TupleKey(tableId, rid))
      ensures Valid() && ActiveSet() == old(ActiveSet())
    {
      active := Noting(active, tx, TupleKey(tableId, rid));
    }

    /** `nameClash`: the catalog refuses a table this transaction created, so the commit turns into an abort. */
    method CommitTransaction(tx: TxID, lm: LockManager, nameClash: bool) returns (r: Outcome)
      requires Valid() && TwoPhase(lm)
      modifies this, lm
      ensures Valid() && TwoPhase(lm)
      ensures r == NotFound <==> tx !in old(active)
      ensures r == NotActive <==> tx in old(active) && old(active[tx].state) != ACTIVE
      ensures r == NameClash <==> tx in old(active) && old(active[tx].state) == ACTIVE && nameClash
      ensures r == Done <==> tx in old(active) && old(active[tx].state) == ACTIVE && !nameClash
      ensures r == NotFound || r == NotActive ==>
        active == old(active) && lm.lockTable == old(lm.lockTable) && ActiveSet() == old(ActiveSet())
      ensures r == Done || r == NameClash ==>
        && tx in old(active) && active == old(active) - {tx} && ActiveSet() == old(ActiveSet()) - {tx}
        && lm.lockTable == ReleaseAll(old(lm.lockTable), tx, old(active[tx].firstRids))
        && (forall key :: key in lm.lockTable ==> lm.lockTable[key] != tx)
      ensures transactionCount == old(transactionCount)
    {
      if tx !in active { return NotFound; }
      var t := active[tx];
      if t.state != ACTIVE { return NotActive; }
      if nameClash {
        FinishAbort(tx, lm);
        r := NameClash;
      } else {
        active := active[tx := t.(state := COMMITTED)];
        lm.ReleaseAllLocks(t);
        r := Done;
      }
      active := active - {tx};
    }

    /** Bookkeeping only: the undo of the tuples of the write set is left to the heap files. */
    method AbortTransaction(tx: TxID, lm: LockManager) returns (r: Outcome)
      requires Valid() && TwoPhase(lm)
      modifies this, lm
      ensures Valid() && TwoPhase(lm)
      ensures r == if tx in old(active) then Done else NotFound
      ensures r == NotFound ==> active == old(active) && lm.lockTable == old(lm.lockTable)
      ensures r == Done ==>
        && tx in old(active) && active == old(active) - {tx} && ActiveSet() == old(ActiveSet()) - {tx}
        && lm.lockTable == ReleaseAll(old(lm.lockTable), tx, old(active[tx].firstRids))
        && (forall key :: key in lm.lockTable ==> lm.lockTable[key] != tx)
      ensures transactionCount == old(transactionCount)
    {
      if tx !in active { return NotFound; }
      FinishAbort(tx, lm);
      active := active - {tx};
      r := Done;
    }

    method FinishAbort(tx: TxID, lm: LockManager)
      requires Valid() && tx in active
      modifies `active, lm
      ensures active == old(active)[tx := old(active[tx]).(state := COMMITTED)]
      ensures lm.lockTable == ReleaseAll(old(lm.lockTable), tx, old(active[tx].firstRids))
    {
      active := active[tx := active[tx].(state := COMMITTED)];
      lm.ReleaseAllLocks(active[tx]);
    }
  }
}
