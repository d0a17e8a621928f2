/**
 * Page-granularity locking: a PageLock per page keeps the map from transactions to the mode
 * they hold, guarded by a read-write lock; the LockManager creates PageLocks lazily and keeps,
 * per transaction, the set of pages it acquired for writing.
 *
 * The model is sequential. A lock request that would make the calling thread wait on the
 * read-write lock (or spin in the upgrade loop) returns `granted == false` and changes nothing;
 * calling again later stands for the thread waking up and re-checking.
 */
module Locking {
  import opened Wrappers

  datatype PageId = PageId(tableId: int, pageNumber: int)
  datatype TransactionId = TransactionId(id: int)
  datatype PageLockType = Read | Write
  datatype Permissions = ReadOnly | ReadWrite

  /** A PageLock's holder map (`txLockMap`). */
  type HolderMap = map<TransactionId, PageLockType>

  /** The transactions holding the page in READ mode; their number is the read lock's hold count. */
  function ReadHolders(m: HolderMap): set<TransactionId>
  {
    set t | t in m && m[t] == Read
  }

  /** Someone holds the page in WRITE mode: the read-write lock is write-locked. */
  predicate HasWriter(m: HolderMap)
  {
    exists t :: t in m && m[t] == Write
  }

  /** Mutual exclusion: a WRITE entry never shares the page with any other holder. */
  predicate Exclusive(m: HolderMap)
  {
    forall t, u :: t in m && u in m && m[t] == Write ==> t == u
  }

  /** `RLock` returns without waiting: tid already holds the page, or no one write-locks it. */
  predicate CanRLock(m: HolderMap, tid: TransactionId)
  {
    tid in m || !HasWriter(m)
  }

  /**
   * `WLock` returns without waiting: a newcomer needs the read-write lock free of readers and
   * writers; a READ holder's upgrade loop exits once it is the only reader and no one writes;
   * a WRITE holder passes straight through.
   */
  predicate CanWLock(m: HolderMap, tid: TransactionId)
  {
    if tid !in m then |ReadHolders(m)| == 0 && !HasWriter(m)
    else if m[tid] == Read then |ReadHolders(m)| == 1 && !HasWriter(m)
    else true
  }

  /** A reader that is the only reader, with no writer about, is the page's only holder. */
  lemma {:induction false} SoleReaderIsSoleHolder(m: HolderMap, tid: TransactionId)
    requires tid in m && m[tid] == Read
    requires |ReadHolders(m)| == 1 && !HasWriter(m)
    ensures m == map[tid := Read]
  {
    forall u | u in m
      ensures u == tid
    {
      if u != tid {
        assert m[u] == Read;
        assert {tid, u} <= ReadHolders(m);
        assert |{tid, u}| == 2;
        SubsetCardinality({tid, u}, ReadHolders(m));
      }
    }
  }

  lemma {:induction false} SubsetCardinality<T>(a: set<T>, b: set<T>)
    requires a <= b
    ensures |a| <= |b|
  {
    assert b == a + (b - a);
  }

  /**
   * Two transactions that both hold READ can never upgrade: each one's upgrade loop waits for
   * the other to let go, and there is no timeout (the converter deadlock).
   */
  lemma TwoReadersBlockUpgrades(m: HolderMap, t: TransactionId, u: TransactionId)
    requires t != u && t in m && u in m && m[t] == Read && m[u] == Read
    ensures !CanWLock(m, t) && !CanWLock(m, u)
  {
    if CanWLock(m, t) {
      SoleReaderIsSoleHolder(m, t);
      assert false;
    }
    if CanWLock(m, u) {
      SoleReaderIsSoleHolder(m, u);
      assert false;
    }
  }

  /** A newcomer gets the write lock only on a page no one holds. */
  lemma NewWriterNeedsFreePage(m: HolderMap, tid: TransactionId)
    requires tid !in m
    ensures CanWLock(m, tid) <==> m == map[]
  {
    if m != map[] {
      var u :| u in m;
      if m[u] == Read {
        assert u in ReadHolders(m);
      } else {
        assert HasWriter(m);
      }
    }
  }

  /** Whenever `WLock` may return, tid's other holders are none: only its own entry can be present. */
  lemma GrantedWriterIsSoleHolder(m: HolderMap, tid: TransactionId)
    ensures Exclusive(m) && CanWLock(m, tid) ==> m.Keys <= {tid}
  {
    if !(Exclusive(m) && CanWLock(m, tid)) {
    } else if tid !in m {
      NewWriterNeedsFreePage(m, tid);
    } else if m[tid] == Read {
      SoleReaderIsSoleHolder(m, tid);
    }
  }

  /** The holder map after a granted `RLock`: a newcomer is recorded as READ, a holder is left alone. */
  function AfterRLock(m: HolderMap, tid: TransactionId): (r: HolderMap)
    ensures tid in r
    ensures tid in m ==> r == m
    ensures tid !in m ==> r[tid] == Read && r - {tid} == m
    ensures Exclusive(m) && CanRLock(m, tid) ==> Exclusive(r)
    ensures ReadHolders(r) == if tid in m then ReadHolders(m) else ReadHolders(m) + {tid}
  {
    if tid in m then m else m[tid := Read]
  }

  /** The holder map after a granted `WLock`: tid holds WRITE, and then it is the page's only holder. */
  function AfterWLock(m: HolderMap, tid: TransactionId): (r: HolderMap)
    ensures tid in r && r[tid] == Write
    ensures tid in m && m[tid] == Write ==> r == m
    ensures Exclusive(m) && CanWLock(m, tid) ==> r == map[tid := Write]
  {
    GrantedWriterIsSoleHolder(m, tid);
    if tid in m && m[tid] == Write then m else m[tid := Write]
  }

  /** The holder map after `Unlock`: tid's entry is gone whatever its mode; no one else is touched. */
  function AfterUnlock(m: HolderMap, tid: TransactionId): (r: HolderMap)
    ensures tid !in r
    ensures forall t :: t != tid ==> (t in r <==> t in m) && (t in r ==> r[t] == m[t])
    ensures tid !in m ==> r == m
    ensures Exclusive(m) ==> Exclusive(r)
    ensures ReadHolders(r) == ReadHolders(m) - {tid}
  {
    m - {tid}
  }

  /** The holder map after `UnlockRead`: only a READ entry of tid is removed; a WRITE hold survives. */
  function AfterUnlockRead(m: HolderMap, tid: TransactionId): (r: HolderMap)
    ensures tid in r <==> tid in m && m[tid] == Write
    ensures forall t :: t != tid ==> (t in r <==> t in m) && (t in r ==> r[t] == m[t])
    ensures tid in r ==> r == m
    ensures Exclusive(m) ==> Exclusive(r)
    ensures ReadHolders(r) == ReadHolders(m) - {tid}
  {
    if tid !in m then m
    else match m[tid]
      case Read => m - {tid}
      case Write => m
  }

  /** The lock record of one page. `readCount` and `writeLocked` are the state of its read-write lock. */
  class PageLock {
    const pid: PageId
    var txLockMap: HolderMap
    var readCount: nat      // rwl.getReadLockCount()
    var writeLocked: bool   // rwl.isWriteLocked()

    /** The read-write lock agrees with the holder map, and the holder map is mutually exclusive. */
    ghost predicate Valid()
      reads this
    {
      && readCount == |ReadHolders(txLockMap)|
      && writeLocked == HasWriter(txLockMap)
      && Exclusive(txLockMap)
    }

    constructor (pid: PageId)
      ensures Valid()
      ensures this.pid == pid && txLockMap == map[]
    {
      this.pid := pid;
      txLockMap := map[];
      readCount, writeLocked := 0, false;
      assert ReadHolders(map[]) == {};
    }

    /** `RLock(tid)`. */
    method RLock(tid: TransactionId) returns (granted: bool)
      requires Valid()
      modifies this
      ensures Valid()
      ensures granted <==> CanRLock(old(txLockMap), tid)
      ensures txLockMap == if granted then AfterRLock(old(txLockMap), tid) else old(txLockMap)
    {
      if tid !in txLockMap {
        if writeLocked {
          return false;  // rwl.readLock().lock() waits for the writer
        }
        readCount := readCount + 1;
        txLockMap := txLockMap[tid := Read];
        assert ReadHolders(txLockMap) == ReadHolders(old(txLockMap)) + {tid};
      }
      granted := true;
    }

    /** `WLock(tid)`, including the upgrade of a READ hold. */
    method WLock(tid: TransactionId) returns (granted: bool)
      requires Valid()
      modifies this
      ensures Valid()
      ensures granted <==> CanWLock(old(txLockMap), tid)
      ensures txLockMap == if granted then AfterWLock(old(txLockMap), tid) else old(txLockMap)
    {
      if tid !in txLockMap {
        if readCount != 0 || writeLocked {
          return false;  // rwl.writeLock().lock() waits for every holder
        }
        NewWriterNeedsFreePage(txLockMap, tid);
        writeLocked := true;
        txLockMap := txLockMap[tid := Write];
      } else if txLockMap[tid] == Read {
        if !(readCount == 1 && !writeLocked) {
          return false;  // the polling loop keeps sleeping
        }
        SoleReaderIsSoleHolder(txLockMap, tid);
        // the read-write lock is replaced by a fresh one, which is then write-locked
        readCount, writeLocked := 0, true;
        txLockMap := txLockMap[tid := Write];
        assert txLockMap == map[tid := Write];
      }
      assert ReadHolders(txLockMap) == ReadHolders(old(txLockMap)) - {tid};
      granted := true;
    }

    /** `Unlock(tid)`: give up whatever tid holds. */
    method Unlock(tid: TransactionId)
      requires Valid()
      modifies this
      ensures Valid()
      ensures txLockMap == AfterUnlock(old(txLockMap), tid)
    {
      if tid !in txLockMap {
        return;
      } else if txLockMap[tid] == Read {
        assert tid in ReadHolders(txLockMap);
        readCount := readCount - 1;
      } else {
        writeLocked := false;
      }
      txLockMap := txLockMap - {tid};
      assert txLockMap == AfterUnlock(old(txLockMap), tid);
    }

    /** `UnlockRead(tid)`: give up a READ hold only. */
    method UnlockRead(tid: TransactionId)
      requires Valid()
      modifies this
      ensures Valid()
      ensures txLockMap == AfterUnlockRead(old(txLockMap), tid)
    {
      if tid in txLockMap && txLockMap[tid] == Read {
        assert tid in ReadHolders(txLockMap);
        readCount := readCount - 1;
        txLockMap := txLockMap - {tid};
        assert txLockMap == AfterUnlockRead(old(txLockMap), tid);
      }
    }
  }

  /** tid's page set after a READ_WRITE grant on pid: pid is added, the set created if absent. */
  function RecordWrite(index: map<TransactionId, set<PageId>>, tid: TransactionId, pid: PageId)
    : (r: map<TransactionId, set<PageId>>)
    ensures r.Keys == index.Keys + {tid}
    ensures r[tid] == (if tid in index then index[tid] else {}) + {pid}
    ensures forall t :: t in index && t != tid ==> r[t] == index[t]
  {
    if tid in index then index[tid := index[tid] + {pid}] else index[tid := {pid}]
  }

  class LockManager {
    var pageLockMap: map<PageId, PageLock>
    var txRelatedPages: map<TransactionId, set<PageId>>

    /** The PageLock filed under pid, as a set (empty while pid has none). */
    ghost function LockOf(pid: PageId): set<PageLock>
      reads this`pageLockMap
    {
      if pid in pageLockMap then {pageLockMap[pid]} else {}
    }

    /** The holder map of pid; a page without a PageLock yet has no holders. */
    ghost function Holders(pid: PageId): HolderMap
      reads this`pageLockMap, LockOf(pid)
    {
      if pid in pageLockMap then pageLockMap[pid].txLockMap else map[]
    }

    /** The PageLock filed under pid belongs to pid and is valid. */
    ghost predicate LockValid(pid: PageId)
      reads this`pageLockMap, LockOf(pid)
    {
      pid in pageLockMap ==> pageLockMap[pid].pid == pid && pageLockMap[pid].Valid()
    }

    /**
     * Every PageLock is filed under its own page (so there is one per page) and is valid, and
     * the reverse index records only pages on which the transaction holds WRITE.
     */
    ghost predicate Valid()
      reads this, pageLockMap.Values
    {
      LocksValid() && IndexValid()
    }

    /** Every PageLock is filed under its own page and is valid. */
    ghost predicate LocksValid()
      reads this`pageLockMap, pageLockMap.Values
    {
      forall p :: LockValid(p)
    }

    /** The reverse index records only pages on which the transaction holds WRITE. */
    ghost predicate IndexValid()
      reads this, pageLockMap.Values
    {
      forall t, p :: t in txRelatedPages && p in txRelatedPages[t] ==> HoldsWrite(t, p)
    }

    /** t holds pid in WRITE mode. */
    ghost predicate HoldsWrite(t: TransactionId, pid: PageId)
      reads this`pageLockMap, LockOf(pid)
    {
      pid in pageLockMap && t in Holders(pid) && Holders(pid)[t] == Write
    }

    constructor ()
      ensures Valid()
      ensures pageLockMap == map[] && txRelatedPages == map[]
    {
      pageLockMap := map[];
      txRelatedPages := map[];
    }

    /** Distinct pages never share a PageLock. */
    lemma OneLockPerPage(p: PageId, q: PageId)
      requires Valid()
      requires p in pageLockMap && q in pageLockMap && p != q
      ensures pageLockMap[p] != pageLockMap[q]
    {
      assert LockValid(p) && LockValid(q);
    }

    /** The lookup at the head of `acquire`: create and file a PageLock for an unseen pid, else reuse the one filed. */
    method GetOrCreate(pid: PageId) returns (pageLock: PageLock)
      requires Valid()
      modifies this`pageLockMap
      ensures Valid()
      ensures pid in old(pageLockMap) ==> pageLockMap == old(pageLockMap) && pageLock == pageLockMap[pid]
      ensures pid !in old(pageLockMap) ==> fresh(pageLock) && pageLockMap == old(pageLockMap)[pid := pageLock]
      ensures pageLockMap[pid] == pageLock
      ensures pageLockMap.Keys == old(pageLockMap.Keys) + {pid}
      ensures forall p :: p in old(pageLockMap) ==> pageLockMap[p] == old(pageLockMap[p])
      ensures forall p :: Holders(p) == old(Holders(p))
    {
      if pid !in pageLockMap {
        pageLock := new PageLock(pid);
        pageLockMap := pageLockMap[pid := pageLock];
        assert forall p :: p != pid ==> LockOf(p) == old(LockOf(p));
      } else {
        pageLock := pageLockMap[pid];
      }
    }

    /** A PageLock filed under another page is not `pageLock`, so locking `pageLock` leaves it alone. */
    lemma OthersAreDistinct(pid: PageId, pageLock: PageLock)
      requires LocksValid() && pid in pageLockMap && pageLockMap[pid] == pageLock
      ensures forall p :: p != pid && p in pageLockMap ==> pageLockMap[p] != pageLock
    {
      forall p | p != pid && p in pageLockMap
        ensures pageLockMap[p] != pageLock
      {
        assert LockValid(p) && LockValid(pid);
      }
    }

    /** The READ_ONLY branch of `acquire` once pid's PageLock is filed. */
    method ReadLockFiled(tid: TransactionId, pid: PageId) returns (granted: bool)
      requires Valid() && pid in pageLockMap
      modifies pageLockMap[pid]
      ensures Valid()
      ensures granted <==> CanRLock(old(Holders(pid)), tid)
      ensures Holders(pid) == if granted then AfterRLock(old(Holders(pid)), tid) else old(Holders(pid))
      ensures forall p :: p != pid ==> Holders(p) == old(Holders(p))
    {
      var pageLock := pageLockMap[pid];
      assert LockValid(pid);
      OthersAreDistinct(pid, pageLock);
      granted := pageLock.RLock(tid);
      assert LockValid(pid);
      forall p | p != pid
        ensures LockValid(p) && Holders(p) == old(Holders(p))
      {
        assert old(LockValid(p));
        assert p in pageLockMap ==> pageLockMap[p] != pageLock;
      }
      forall t, p | t in txRelatedPages && p in txRelatedPages[t]
        ensures HoldsWrite(t, p)
      {
        assert old(HoldsWrite(t, p));
      }
    }

    /** The READ_WRITE branch of `acquire` once pid's PageLock is filed: a grant also records pid under tid. */
    method WriteLockFiled(tid: TransactionId, pid: PageId) returns (granted: bool)
      requires Valid() && pid in pageLockMap
      modifies pageLockMap[pid], this`txRelatedPages
      ensures Valid()
      ensures granted <==> CanWLock(old(Holders(pid)), tid)
      ensures Holders(pid) == if granted then AfterWLock(old(Holders(pid)), tid) else old(Holders(pid))
      ensures forall p :: p != pid ==> Holders(p) == old(Holders(p))
      ensures txRelatedPages == if granted then RecordWrite(old(txRelatedPages), tid, pid) else old(txRelatedPages)
    {
      var pageLock := pageLockMap[pid];
      assert LockValid(pid);
      OthersAreDistinct(pid, pageLock);
      granted := pageLock.WLock(tid);
      if granted {
        txRelatedPages := RecordWrite(txRelatedPages, tid, pid);
      }
      assert LockValid(pid);
      forall p | p != pid
        ensures LockValid(p) && Holders(p) == old(Holders(p))
      {
        assert old(LockValid(p));
        assert p in pageLockMap ==> pageLockMap[p] != pageLock;
      }
      forall t, p | t in txRelatedPages && p in txRelatedPages[t]
        ensures HoldsWrite(t, p)
      {
        if t != tid || p != pid {
          assert old(HoldsWrite(t, p));
        }
      }
    }

    /** `acquire(tid, pid, perm)`. */
    method Acquire(tid: TransactionId, pid: PageId, perm: Permissions) returns (granted: bool)
      requires Valid()
      modifies this, pageLockMap.Values
      ensures Valid()
      ensures pageLockMap.Keys == old(pageLockMap.Keys) + {pid}
      ensures forall p :: p in old(pageLockMap) ==> pageLockMap[p] == old(pageLockMap[p])
      ensures pid !in old(pageLockMap) ==> fresh(pageLockMap[pid])
      ensures granted <==>
        if perm == ReadWrite then CanWLock(old(Holders(pid)), tid) else CanRLock(old(Holders(pid)), tid)
      ensures Holders(pid) ==
        if !granted then old(Holders(pid))
        else if perm == ReadWrite then AfterWLock(old(Holders(pid)), tid)
        else AfterRLock(old(Holders(pid)), tid)
      ensures forall p :: p != pid ==> Holders(p) == old(Holders(p))
      ensures txRelatedPages ==
        if granted && perm == ReadWrite then RecordWrite(old(txRelatedPages), tid, pid) else old(txRelatedPages)
    {
      var pageLock := GetOrCreate(pid);
      label Found:
      if perm == ReadWrite {
        granted := WriteLockFiled(tid, pid);
      } else {
        granted := ReadLockFiled(tid, pid);
      }
      assert Holders(pid) ==
        if !granted then old@Found(Holders(pid))
        else if perm == ReadWrite then AfterWLock(old@Found(Holders(pid)), tid)
        else AfterRLock(old@Found(Holders(pid)), tid);
    }

    /** Unlock tid on pid's filed PageLock, all holds (`Unlock`) or a READ hold only (`UnlockRead`). */
    method UnlockFiled(tid: TransactionId, pid: PageId, readOnly: bool)
      requires LocksValid() && pid in pageLockMap
      modifies pageLockMap[pid]
      ensures LocksValid()
      ensures Holders(pid) ==
        if readOnly then AfterUnlockRead(old(Holders(pid)), tid) else AfterUnlock(old(Holders(pid)), tid)
      ensures forall p :: p != pid ==> Holders(p) == old(Holders(p))
    {
      var pageLock := pageLockMap[pid];
      assert LockValid(pid);
      OthersAreDistinct(pid, pageLock);
      if readOnly {
        pageLock.UnlockRead(tid);
      } else {
        pageLock.Unlock(tid);
      }
      assert LockValid(pid);
      forall p | p != pid
        ensures LockValid(p) && Holders(p) == old(Holders(p))
      {
        assert old(LockValid(p));
        assert p in pageLockMap ==> pageLockMap[p] != pageLock;
      }
    }

    /** `release(tid, pid)`: unlock, then drop pid from tid's page set, which must exist. */
    method Release(tid: TransactionId, pid: PageId) returns (outcome: Outcome)
      requires Valid()
      modifies pageLockMap.Values, this`txRelatedPages
      ensures Valid()
      ensures pageLockMap == old(pageLockMap)
      ensures Holders(pid) == AfterUnlock(old(Holders(pid)), tid)
      ensures forall p :: p != pid ==> Holders(p) == old(Holders(p))
      ensures outcome == Thrown(NullPointerException) <==> pid in pageLockMap && tid !in old(txRelatedPages)
      ensures outcome == Normal || outcome == Thrown(NullPointerException)
      ensures txRelatedPages ==
        if pid in pageLockMap && tid in old(txRelatedPages)
        then old(txRelatedPages)[tid := old(txRelatedPages)[tid] - {pid}]
        else old(txRelatedPages)
    {
      if pid !in pageLockMap {
        return Normal;
      }
      UnlockFiled(tid, pid, false);
      if tid !in txRelatedPages {
        outcome := Thrown(NullPointerException);  // txRelatedPages.get(tid) is null
      } else {
        txRelatedPages := txRelatedPages[tid := txRelatedPages[tid] - {pid}];
        outcome := Normal;
      }
      forall t, p | t in txRelatedPages && p in txRelatedPages[t]
        ensures HoldsWrite(t, p)
      {
        assert old(HoldsWrite(t, p));
      }
    }

    /** `unlockRead(tid, pid)`: give up a READ hold, then drop pid from tid's page set, which must exist. */
    method UnlockRead(tid: TransactionId, pid: PageId) returns (outcome: Outcome)
      requires Valid()
      modifies pageLockMap.Values, this`txRelatedPages
      ensures Valid()
      ensures pageLockMap == old(pageLockMap)
      ensures Holders(pid) == AfterUnlockRead(old(Holders(pid)), tid)
      ensures forall p :: p != pid ==> Holders(p) == old(Holders(p))
      ensures outcome == Thrown(NullPointerException) <==> pid in pageLockMap && tid !in old(txRelatedPages)
      ensures outcome == Normal || outcome == Thrown(NullPointerException)
      ensures txRelatedPages ==
        if pid in pageLockMap && tid in old(txRelatedPages)
        then old(txRelatedPages)[tid := old(txRelatedPages)[tid] - {pid}]
        else old(txRelatedPages)
    {
      if pid !in pageLockMap {
        return Normal;
      }
      UnlockFiled(tid, pid, true);
      if tid !in txRelatedPages {
        outcome := Thrown(NullPointerException);  // txRelatedPages.get(tid) is null
      } else {
        txRelatedPages := txRelatedPages[tid := txRelatedPages[tid] - {pid}];
        outcome := Normal;
      }
      forall t, p | t in txRelatedPages && p in txRelatedPages[t]
        ensures HoldsWrite(t, p)
      {
        assert old(HoldsWrite(t, p));
      }
    }
  }

  /**
   * `release` by a transaction that only ever read throws: READ_ONLY acquisitions never create
   * the transaction's page set, which `release` dereferences.
   */
  method ReadOnlyReleaseThrows(tid: TransactionId, pid: PageId) returns (outcome: Outcome)
    ensures outcome == Thrown(NullPointerException)
  {
    var manager := new LockManager();
    var granted := manager.Acquire(tid, pid, ReadOnly);
    outcome := manager.Release(tid, pid);
  }

  /**
   * `unlockRead` by the page's writer returns normally and drops the page from the writer's page
   * set, while the WRITE hold itself survives.
   */
  method WriterUnlockReadKeepsHold(tid: TransactionId, pid: PageId)
    returns (outcome: Outcome, stillWrites: bool, stillIndexed: bool)
    ensures outcome == Normal && stillWrites && !stillIndexed
  {
    var manager := new LockManager();
    assert ReadHolders(map[]) == {};
    var granted := manager.Acquire(tid, pid, ReadWrite);
    outcome := manager.UnlockRead(tid, pid);
    var m := manager.pageLockMap[pid].txLockMap;
    stillWrites := tid in m && m[tid] == Write;
    stillIndexed := pid in manager.txRelatedPages[tid];
  }
}
