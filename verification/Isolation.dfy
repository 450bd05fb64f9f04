/**
 * What READ COMMITTED transactions can rely on, over every run of the machine: well-formed version
 * chains, strict two-phase locking, no lost updates, and which reads are exact.
 */
module Isolation {
  import opened Model
  import opened Versions
  import opened Pages
  import opened Machine
  import opened MachineProofs

  // ---------------------------------------------------------------- runs

  function Run(assign: Assign, s: Sys, es: seq<Event>): Option<Sys>
    decreases |es|
  {
    if es == [] then Some(s)
    else
      match Next(assign, s, es[0])
      case None => None
      case Some(s') => Run(assign, s', es[1..])
  }

  /** The chains at the end of a run. */
  ghost function RunChains(assign: Assign, s: Sys, ch: Chains, es: seq<Event>): Chains
    decreases |es|
  {
    if es == [] then ch
    else
      match Next(assign, s, es[0])
      case None => ch
      case Some(s') => RunChains(assign, s', NextChains(s, ch, es[0]), es[1..])
  }

  /** A database at rest: nobody is active and every version sits in the chain of its tuple. */
  ghost predicate AtRest(s: Sys, ch: Chains) {
    && s.txs == map[] && s.locks == map[] && s.nextTx > 0
    && (forall f :: f in ch ==> IsChain(s.heap, f, ch[f]) && s.heap[Last(ch[f])].header.tMax < s.nextTx)
    && (forall r :: r in s.heap ==>
          && r.Proper() && s.heap[r].header.tMin < s.nextTx
          && s.heap[r].header.first in ch && r in ch[s.heap[r].header.first])
    && (forall r :: r in s.heap && s.heap[r].header.first == r ==> r in ch)
  }

  lemma AtRestIsInv(assign: Assign, s: Sys, ch: Chains)
    requires AtRest(s, ch)
    ensures Inv(assign, ch, s, ch) && s.nextTx > 0
  {
    assert TxsOk(assign, s, ch) && LocksOk(s);
    assert Active(s) == {};
    assert HeapOk(s, ch);
    forall f | f in ch ensures ChainOk(assign, s, f, ch[f], Length0(ch, f)) {
      ChainAtRest(assign, s, f, ch[f]);
    }
  }

  lemma ChainAtRest(assign: Assign, s: Sys, f: RID, c: seq<RID>)
    requires IsChain(s.heap, f, c) && s.heap[Last(c)].header.tMax < s.nextTx && Active(s) == {}
    ensures ChainOk(assign, s, f, c, |c|)
  {
  }

  lemma StepInv(assign: Assign, ch0: Chains, s: Sys, ch: Chains, e: Event)
    requires Inv(assign, ch0, s, ch) && s.nextTx > 0 && Next(assign, s, e).Some?
    ensures Inv(assign, ch0, Next(assign, s, e).value, NextChains(s, ch, e))
    ensures Next(assign, s, e).value.nextTx > 0
  {
    hide Inv;
    match e
    case Start => StartStep(assign, ch0, s, ch);
    case InsertPage(t, at, rec) => PageInsertStep(assign, ch0, s, ch, t, at, rec);
    case NoteInsert(t) => InsertNotedStep(assign, ch0, s, ch, t);
    case OpenScan(t, pages) => CursorStep(assign, ch0, s, ch, t, Cursor(0, 0, pages));
    case PassSlot(t) =>
      var c := s.txs[t].cursor.value;
      CursorStep(assign, ch0, s, ch, t, c.(slot := c.slot + 1));
    case PassPage(t) =>
      var c := s.txs[t].cursor.value;
      CursorStep(assign, ch0, s, ch, t, Cursor(c.page + 1, 0, c.pages));
    case BeginRead(t, f, update) => ReadBegunStep(assign, ch0, s, ch, t, f, update);
    case Fetch(t) => HeaderFetchedStep(assign, ch0, s, ch, t);
    case Check(t) => StatesCheckedStep(assign, ch0, s, ch, t);
    case Lock(t) => LockTakenStep(assign, ch0, s, ch, t);
    case Skip(t) => SkippedStep(assign, ch0, s, ch, t);
    case Compute(t, rec) => ComputingStep(assign, ch0, s, ch, t, rec);
    case FollowNext(t) => NextFollowedStep(assign, ch0, s, ch, t);
    case InsertVersion(t, at) => VersionInsertedStep(assign, ch0, s, ch, t, at);
    case Link(t) => RelinkedStep(assign, ch0, s, ch, t);
    case End(t) => EndedStep(assign, ch0, s, ch, t);
    case Release(t) => LocksReleasedStep(assign, ch0, s, ch, t);
    case Erase(t) => ErasedStep(assign, ch0, s, ch, t);
  }

  lemma {:induction false} RunInv(assign: Assign, ch0: Chains, s: Sys, ch: Chains, es: seq<Event>)
    requires Inv(assign, ch0, s, ch) && s.nextTx > 0 && Run(assign, s, es).Some?
    ensures Inv(assign, ch0, Run(assign, s, es).value, RunChains(assign, s, ch, es))
    ensures Run(assign, s, es).value.nextTx > 0
    decreases |es|
  {
    hide Inv, Next, NextChains;
    if es != [] {
      StepInv(assign, ch0, s, ch, es[0]);
      RunInv(assign, ch0, Next(assign, s, es[0]).value, NextChains(s, ch, es[0]), es[1..]);
    }
  }

  // ---------------------------------------------------------------- chains, locks and updates over every run

  /** Everything committed before stays: chains only grow at the end, and no record is rewritten. */
  ghost predicate Extends(s: Sys, ch: Chains, s': Sys, ch': Chains) {
    ChainsGrow(ch, ch') && HeapGrows(s, s') && s.nextTx <= s'.nextTx
  }

  lemma ExtendsTransitive(s: Sys, ch: Chains, s': Sys, ch': Chains, s'': Sys, ch'': Chains)
    requires Extends(s, ch, s', ch') && Extends(s', ch', s'', ch'')
    ensures Extends(s, ch, s'', ch'')
  {
  }

  ghost predicate AddsVersion(s: Sys, s': Sys) {
    exists at :: at in s'.heap && at !in s.heap && s'.heap == s.heap[at := s'.heap[at]]
  }

  ghost predicate Relinks(s: Sys, s': Sys, t: TxID) {
    && t in s.txs && s.txs[t].pc.Orphaned? && s.txs[t].pc.last in s.heap && s.txs[t].state == ACTIVE
    && s'.heap == LinkVersion(s.heap, s.txs[t].pc.last, t, s.txs[t].pc.newer)
  }

  /** The heap after a step is the old one, or has one version more, or one header relinked. */
  lemma StepHeap(assign: Assign, s: Sys, e: Event)
    requires Next(assign, s, e).Some?
    requires !e.Start? && e.tx in s.txs && s.txs[e.tx].pc.Orphaned? ==> s.txs[e.tx].state == ACTIVE
    ensures var s' := Next(assign, s, e).value;
      && s.nextTx <= s'.nextTx
      && (if e.Link? then Relinks(s, s', e.tx) else s'.heap == s.heap || AddsVersion(s, s'))
  {
    if e.InsertPage? || e.InsertVersion? { assert e.at in Next(assign, s, e).value.heap; }
  }

  lemma InsertedAtIsFree(assign: Assign, s: Sys, e: Event)
    requires e.InsertPage? && Next(assign, s, e).Some?
    ensures e.tx in s.txs && e.at !in s.heap
  {
  }

  lemma StepExtends(assign: Assign, ch0: Chains, s: Sys, ch: Chains, e: Event)
    requires Inv(assign, ch0, s, ch) && Next(assign, s, e).Some?
    ensures Extends(s, ch, Next(assign, s, e).value, NextChains(s, ch, e))
  {
    hide Inv, PcOk, Next;
    if !e.Start? && e.tx in s.txs { Focus(assign, ch0, s, ch, e.tx, DELETED); }
    StepHeap(assign, s, e);
    if e.InsertPage? {
      InsertedAtIsFree(assign, s, e);
      Focus(assign, ch0, s, ch, e.tx, e.at);
    } else if e.Link? {
      RelinkFacts(assign, ch0, s, ch, e.tx);
    }
  }

  lemma {:induction false} RunExtends(assign: Assign, ch0: Chains, s: Sys, ch: Chains, es: seq<Event>)
    requires Inv(assign, ch0, s, ch) && s.nextTx > 0 && Run(assign, s, es).Some?
    ensures Extends(s, ch, Run(assign, s, es).value, RunChains(assign, s, ch, es))
    decreases |es|
  {
    hide Inv, Next, NextChains, Extends;
    if es == [] {
      ExtendsReflexive(s, ch);
    } else {
      var s', ch' := Next(assign, s, es[0]).value, NextChains(s, ch, es[0]);
      StepExtends(assign, ch0, s, ch, es[0]);
      StepInv(assign, ch0, s, ch, es[0]);
      RunExtends(assign, ch0, s', ch', es[1..]);
      ExtendsTransitive(s, ch, s', ch', Run(assign, s, es).value, RunChains(assign, s, ch, es));
    }
  }

  lemma ExtendsReflexive(s: Sys, ch: Chains)
    ensures Extends(s, ch, s, ch)
  {
  }

  /**
   * Chains in every reachable state: whatever transactions did, each tuple's versions form one finite
   * chain without repetition that starts at its first RID, links t_max of a version to t_min of the next,
   * and shares `first`; its writers are finished ones followed by at most one active transaction; and the
   * part that existed before the run is still there.
   */
  lemma ChainsInEveryRun(assign: Assign, s0: Sys, ch0: Chains, es: seq<Event>)
    requires AtRest(s0, ch0) && Run(assign, s0, es).Some?
    ensures var s, ch := Run(assign, s0, es).value, RunChains(assign, s0, ch0, es);
      && (forall f :: f in s.heap && s.heap[f].header.first == f ==> f in ch)
      && (forall f :: f in ch ==> IsChain(s.heap, f, ch[f]) && OneActiveWriter(s.heap, Active(s), ch[f]))
      && (forall f :: f in ch0 ==> f in ch && ch0[f] <= ch[f])
  {
    AtRestIsInv(assign, s0, ch0);
    RunInv(assign, ch0, s0, ch0, es);
    RunExtends(assign, ch0, s0, ch0, es);
  }

  /**
   * No lost updates: if every SET clause only turns old records into new ones related by `assign`, then
   * every version added to a tuple is so related to the version right below it, in every run.
   */
  lemma NoLostUpdates(assign: Assign, s0: Sys, ch0: Chains, es: seq<Event>, f: RID, i: nat)
    requires AtRest(s0, ch0) && Run(assign, s0, es).Some?
    requires f in RunChains(assign, s0, ch0, es) && 1 <= i < |RunChains(assign, s0, ch0, es)[f]|
    requires f in ch0 ==> i >= |ch0[f]|
    ensures var s, c := Run(assign, s0, es).value, RunChains(assign, s0, ch0, es)[f];
      c[i - 1] in s.heap && c[i] in s.heap && assign(s.heap[c[i - 1]].record, s.heap[c[i]].record)
  {
    hide AtRest, Run, RunChains, PcOk;
    AtRestIsInv(assign, s0, ch0);
    RunInv(assign, ch0, s0, ch0, es);
    ChainIsComputed(assign, ch0, Run(assign, s0, es).value, RunChains(assign, s0, ch0, es), f);
  }

  lemma ChainIsComputed(assign: Assign, ch0: Chains, s: Sys, ch: Chains, f: RID)
    requires Inv(assign, ch0, s, ch) && f in ch
    ensures (forall i :: 0 <= i < |ch[f]| ==> ch[f][i] in s.heap) && Computed(assign, s.heap, ch[f], Length0(ch0, f))
  {
    assert ChainOk(assign, s, f, ch[f], Length0(ch0, f));
  }

  /** The version an UPDATE computes from is the one `get_last_version` finds, and it is still the last one. */
  lemma UpdateBuildsOnLast(assign: Assign, s0: Sys, ch0: Chains, es: seq<Event>, t: TxID)
    requires AtRest(s0, ch0) && Run(assign, s0, es).Some? && t in Run(assign, s0, es).value.txs
    ensures var s, ch := Run(assign, s0, es).value, RunChains(assign, s0, ch0, es);
      var pc := s.txs[t].pc;
      && (pc.Chosen? ==> pc.first in ch && ch[pc.first] != [] && pc.src == Last(ch[pc.first]))
      && (pc.Located? || pc.Orphaned? ==>
            pc.first in ch && ch[pc.first] != [] && pc.last == pc.src == Last(ch[pc.first])
            && pc.src in s.heap && s.heap[pc.src].header.tMax == 0 && s.heap[pc.src].header.next == pc.src)
  {
    hide AtRest, Run, RunChains, Inv;
    AtRestIsInv(assign, s0, ch0);
    RunInv(assign, ch0, s0, ch0, es);
    UpdatePlace(assign, ch0, Run(assign, s0, es).value, RunChains(assign, s0, ch0, es), t);
  }

  lemma UpdatePlace(assign: Assign, ch0: Chains, s: Sys, ch: Chains, t: TxID)
    requires Inv(assign, ch0, s, ch) && t in s.txs
    ensures var pc := s.txs[t].pc;
      && (pc.Chosen? ==> pc.first in ch && ch[pc.first] != [] && pc.src == Last(ch[pc.first]))
      && (pc.Located? || pc.Orphaned? ==>
            pc.first in ch && ch[pc.first] != [] && pc.last == pc.src == Last(ch[pc.first])
            && pc.src in s.heap && s.heap[pc.src].header.tMax == 0 && s.heap[pc.src].header.next == pc.src)
  {
    hide Inv;
    var pc := s.txs[t].pc;
    if pc.Chosen? || pc.Located? || pc.Orphaned? { Focus(assign, ch0, s, ch, t, pc.first); }
  }

  ghost predicate WritersHoldLock(s: Sys, f: RID, c: seq<RID>) {
    forall i :: 1 <= i < |c| && c[i] in s.heap && s.heap[c[i]].header.tMin in Active(s) ==>
      f in s.locks && s.locks[f] == s.heap[c[i]].header.tMin
  }

  /** Strict two-phase locking in every reachable state. */
  lemma LocksInEveryRun(assign: Assign, s0: Sys, ch0: Chains, es: seq<Event>)
    requires AtRest(s0, ch0) && Run(assign, s0, es).Some?
    ensures var s, ch := Run(assign, s0, es).value, RunChains(assign, s0, ch0, es);
      // a lock is held by a transaction that is still in the table, and is in its write set
      && (forall k :: k in s.locks ==> s.locks[k] in s.txs && k in s.txs[s.locks[k]].writeSet)
      // nothing is left behind once the locks were released
      && (forall t, k :: t in s.txs && s.txs[t].pc.Released? && k in s.locks ==> s.locks[k] != t)
      // an active transaction that wrote on top of another version holds the lock of the tuple
      && (forall f :: f in ch ==> WritersHoldLock(s, f, ch[f]))
  {
    hide *;
    AtRestIsInv(assign, s0, ch0);
    RunInv(assign, ch0, s0, ch0, es);
    LocksOfState(assign, ch0, Run(assign, s0, es).value, RunChains(assign, s0, ch0, es));
  }

  lemma LocksOfState(assign: Assign, ch0: Chains, s: Sys, ch: Chains)
    requires Inv(assign, ch0, s, ch)
    ensures forall k :: k in s.locks ==> s.locks[k] in s.txs && k in s.txs[s.locks[k]].writeSet
    ensures forall t, k :: t in s.txs && s.txs[t].pc.Released? && k in s.locks ==> s.locks[k] != t
    ensures forall f :: f in ch ==> WritersHoldLock(s, f, ch[f])
  {
    hide PcOk, HeapOk, WritersHoldLock, ChainOk, TxsOk;
    forall f | f in ch ensures WritersHoldLock(s, f, ch[f]) {
      assert ChainOk(assign, s, f, ch[f], Length0(ch0, f));
      ChainIsLocked(assign, s, f, ch[f], Length0(ch0, f));
    }
  }

  lemma ChainIsLocked(assign: Assign, s: Sys, f: RID, c: seq<RID>, from: nat)
    requires ChainOk(assign, s, f, c, from)
    ensures WritersHoldLock(s, f, c)
  {
    hide IsChain, OneActiveWriter, Computed;
  }

  /** A granted lock changes hands only through its holder's own release. */
  lemma LockIsKept(assign: Assign, s: Sys, e: Event, k: RID)
    requires Next(assign, s, e).Some? && k in s.locks
    ensures var s' := Next(assign, s, e).value;
      (k in s'.locks && s'.locks[k] == s.locks[k])
      || (e == Release(s.locks[k]) && k !in s'.locks)
  {
  }

  // ---------------------------------------------------------------- what can keep a transaction from going on

  ghost predicate Can(assign: Assign, s: Sys, e: Event) {
    Next(assign, s, e).Some?
  }

  /** A scan can be opened over all pages; at a slot it stops or passes, and behind the last one it turns the page. */
  ghost predicate ScanGoesOn(assign: Assign, s: Sys, t: TxID)
    requires t in s.txs
  {
    && (forall pages :: Can(assign, s, OpenScan(t, pages)) <==> forall r :: r in s.heap ==> r.pageNum < pages)
    && (s.txs[t].cursor.Some? && s.txs[t].cursor.value.page < s.txs[t].cursor.value.pages ==>
          var c := s.txs[t].cursor.value;
          && (c.slot < MAX_SLOTS ==>
                && (Can(assign, s, BeginRead(t, c.Place(), true)) <==> IsFirst(s, c.Place()))
                && (Can(assign, s, PassSlot(t)) <==> !IsFirst(s, c.Place())))
          && (Can(assign, s, PassPage(t)) <==>
                forall r :: r in s.heap && r.pageNum == c.page ==> r.dirSlot < c.slot))
  }

  /** The steps that transaction `t` can take: from each point of the code, the next one. */
  ghost predicate GoesOn(assign: Assign, s: Sys, t: TxID)
    requires t in s.txs
  {
    match s.txs[t].pc
    case Idle =>
      && (forall at, rec :: Can(assign, s, InsertPage(t, at, rec)) <==> at.Proper() && at !in s.heap)
      && (forall f :: Can(assign, s, BeginRead(t, f, false)) <==> IsFirst(s, f)) && Can(assign, s, End(t))
      && ScanGoesOn(assign, s, t)
    case Inserted(_) => Can(assign, s, NoteInsert(t))
    case At(_, _, _) => Can(assign, s, Fetch(t))
    case Fetched(_, _, _, _) => Can(assign, s, Check(t))
    case Matched(f) =>
      && (Can(assign, s, Lock(t)) <==> f !in s.locks || s.locks[f] == t)
      && Can(assign, s, Skip(t)) && Can(assign, s, End(t))
    case Chosen(_, src) =>
      && Can(assign, s, Skip(t)) && src in s.heap
      && (forall rec :: Can(assign, s, Compute(t, rec)) <==> assign(s.heap[src].record, rec))
    case Finding(_, _, _, _) => Can(assign, s, FollowNext(t))
    case Located(_, _, _, _) =>
      forall at :: Can(assign, s, InsertVersion(t, at)) <==> at.Proper() && at !in s.heap
    case Orphaned(_, _, _, _) => Can(assign, s, Link(t))
    case Ending => Can(assign, s, Release(t))
    case Released => Can(assign, s, Erase(t))
  }

  /**
   * In every reachable state every transaction can go on, and nothing but the lock of a tuple that another
   * transaction holds can keep one waiting.
   */
  lemma OnlyLocksBlock(assign: Assign, s0: Sys, ch0: Chains, es: seq<Event>, t: TxID)
    requires AtRest(s0, ch0) && Run(assign, s0, es).Some? && t in Run(assign, s0, es).value.txs
    ensures GoesOn(assign, Run(assign, s0, es).value, t)
  {
    hide *;
    AtRestIsInv(assign, s0, ch0);
    RunInv(assign, ch0, s0, ch0, es);
    StateGoesOn(assign, ch0, Run(assign, s0, es).value, RunChains(assign, s0, ch0, es), t);
  }

  lemma StateGoesOn(assign: Assign, ch0: Chains, s: Sys, ch: Chains, t: TxID)
    requires Inv(assign, ch0, s, ch) && t in s.txs
    ensures GoesOn(assign, s, t)
  {
    hide Inv;
    WorksInHeap(assign, ch0, s, ch, t);
  }

  /** The versions a transaction is about to look at are there. */
  lemma WorksInHeap(assign: Assign, ch0: Chains, s: Sys, ch: Chains, t: TxID)
    requires Inv(assign, ch0, s, ch) && t in s.txs
    ensures match s.txs[t].pc
      case At(_, cur, _) => cur in s.heap
      case Chosen(_, src) => src in s.heap
      case Finding(_, cur, _, _) => cur in s.heap
      case Orphaned(_, last, _, _) => last in s.heap
      case _ => true
  {
    hide Inv;
    var pc := s.txs[t].pc;
    if pc.At? || pc.Chosen? || pc.Finding? || pc.Orphaned? { Focus(assign, ch0, s, ch, t, pc.first); }
  }

  /** The lock is taken exactly when the lock manager grants it: the tuple is free or already ours. */
  lemma LockIsGranted(s: Sys, t: TxID)
    requires t in s.txs && s.txs[t].pc.Matched?
    ensures var f := s.txs[t].pc.first;
      && (LockTaken(s, t).Some? <==> f !in s.locks || s.locks[f] == t)
      && (LockTaken(s, t).Some? ==>
        var s' := LockTaken(s, t).value;
        && s'.locks == s.locks[f := t] && s'.heap == s.heap && t in s'.txs && s'.txs[t].pc == At(f, f, Reread)
        && s'.txs[t].writeSet == (if f in s.locks then s.txs[t].writeSet else s.txs[t].writeSet + {f})
        && forall u :: u in s.txs && u != t ==> u in s'.txs && s'.txs[u] == s.txs[u])
  {
    var f := s.txs[t].pc.first;
    assert f in s.locks && s.locks[f] == t ==> s.locks[f := t] == s.locks;
  }
}
