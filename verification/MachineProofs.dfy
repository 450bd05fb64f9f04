/** Every step of the machine keeps its invariant. */
module MachineProofs {
  import opened Model
  import opened Versions
  import opened Machine

  lemma PcStable(assign: Assign, s: Sys, ch: Chains, s': Sys, ch': Chains, u: TxID, pc: Pc)
    requires PcOk(assign, s, ch, u, pc)
    requires HeapOk(s, ch)
    requires forall f :: f in ch ==> IsChain(s.heap, f, ch[f])
    requires HeapGrows(s, s') && ActiveShrinks(s, s') && ChainsGrow(ch, ch') && LockedAlone(s, ch, s', ch', u)
    ensures PcOk(assign, s', ch', u, pc)
  {
    hide IsChain, HeapGrows, ActiveShrinks, LockedAlone, HeapOk, FreshOrLast, OnWalk, Seen, Holds, IsNewest;
    match pc
    case Idle =>
    case Inserted(_) =>
    case At(f, cur, ph) => WalkKnown(s, ch, u, f, cur, ph); WalkStable(s, ch, s', ch', u, f, cur, ph);
    case Fetched(f, cur, h, ph) => WalkKnown(s, ch, u, f, cur, ph); WalkStable(s, ch, s', ch', u, f, cur, ph);
    case Matched(f) => SeenStable(s, ch, s', u, f);
    case Chosen(f, src) => NewestStable(s, ch, s', ch', u, f, src);
    case Finding(f, _, src, _) => NewestStable(s, ch, s', ch', u, f, src);
    case Located(f, _, src, _) => NewestStable(s, ch, s', ch', u, f, src);
    case Orphaned(f, _, src, r) => NewestStable(s, ch, s', ch', u, f, src); OrphanStable(s, ch, s', ch', u, f, r);
    case Ending =>
    case Released =>
  }

  lemma WalkKnown(s: Sys, ch: Chains, u: TxID, f: RID, cur: RID, ph: Phase)
    requires OnWalk(s, ch, u, f, cur, ph)
    ensures f in ch && cur in s.heap
  {
  }

  lemma SeenStable(s: Sys, ch: Chains, s': Sys, u: TxID, f: RID)
    requires Seen(s, u, f) && HeapOk(s, ch) && HeapGrows(s, s') && ActiveShrinks(s, s')
    ensures Seen(s', u, f)
  {
  }

  /** The newest version of a locked tuple stays the newest. */
  lemma NewestStable(s: Sys, ch: Chains, s': Sys, ch': Chains, u: TxID, f: RID, src: RID)
    requires Holds(s, u, f) && IsNewest(s, ch, f, src) && HeapOk(s, ch)
    requires forall g :: g in ch ==> IsChain(s.heap, g, ch[g])
    requires HeapGrows(s, s') && ActiveShrinks(s, s') && LockedAlone(s, ch, s', ch', u)
    ensures f in ch && f in ch' && src in s.heap && src in s'.heap
    ensures Holds(s', u, f) && IsNewest(s', ch', f, src) && ch'[f] == ch[f] && s'.heap[src] == s.heap[src]
  {
    SeenStable(s, ch, s', u, f);
    hide Seen, HeapGrows, ActiveShrinks, HeapOk;
  }

  lemma OrphanStable(s: Sys, ch: Chains, s': Sys, ch': Chains, u: TxID, f: RID, r: RID)
    requires Holds(s, u, f) && f in ch && r in s.heap && s.heap[r].header.first == f && LockedAlone(s, ch, s', ch', u)
    ensures r in s'.heap && s'.heap[r] == s.heap[r]
  {
    hide Seen;
  }

  lemma WalkStable(s: Sys, ch: Chains, s': Sys, ch': Chains, u: TxID, f: RID, cur: RID, ph: Phase)
    requires OnWalk(s, ch, u, f, cur, ph) && HeapOk(s, ch) && IsChain(s.heap, f, ch[f])
    requires HeapGrows(s, s') && ActiveShrinks(s, s') && ChainsGrow(ch, ch') && LockedAlone(s, ch, s', ch', u)
    ensures OnWalk(s', ch', u, f, cur, ph)
    ensures forall h :: FreshOrLast(s, cur, h) && (ph.Reread? ==> h == s.heap[cur].header) ==>
      FreshOrLast(s', cur, h) && (ph.Reread? ==> h == s'.heap[cur].header)
  {
  }
  // ---------------------------------------------------------------- every step keeps the invariant

  /** Chains whose versions and lock are untouched stay in order when no finished writer revives. */
  lemma ChainStable(assign: Assign, s: Sys, s': Sys, f: RID, c: seq<RID>, from: nat)
    requires ChainOk(assign, s, f, c, from)
    requires forall i :: 0 <= i < |c| ==> c[i] in s'.heap && s'.heap[c[i]] == s.heap[c[i]]
    requires forall i :: 0 <= i < |c| ==> s.heap[c[i]].header.tMin < s.nextTx
    requires ActiveShrinks(s, s') && s.nextTx <= s'.nextTx
    requires f in s.locks && s.locks[f] in Active(s') ==> f in s'.locks && s'.locks[f] == s.locks[f]
    ensures ChainOk(assign, s', f, c, from)
  {
  }

  /** Only `t` (or nobody) moved: every other transaction is where it was. */
  ghost predicate OnlyMoved(s: Sys, s': Sys, t: TxID) {
    && s.nextTx <= s'.nextTx
    && (forall u :: u in s'.txs && u != t ==> u in s.txs && s'.txs[u] == s.txs[u])
    && (forall u :: u in s.txs && u != t ==> u in s'.txs)
  }

  /** What a step of `t` may look like to the others. */
  ghost predicate Calm(s: Sys, ch: Chains, s': Sys, ch': Chains, t: TxID) {
    && OnlyMoved(s, s', t) && HeapGrows(s, s') && ActiveShrinks(s, s') && ChainsGrow(ch, ch')
    && (forall u :: u in s.txs && u != t ==> LockedAlone(s, ch, s', ch', u))
  }

  /** After its step `t` itself is in order. */
  ghost predicate MoverOk(assign: Assign, s: Sys, ch: Chains, t: TxID) {
    t in s.txs ==>
      && 0 < t < s.nextTx && PcOk(assign, s, ch, t, s.txs[t].pc)
      && (s.txs[t].state == COMMITTED <==> s.txs[t].pc.Ending? || s.txs[t].pc.Released?)
  }

  lemma OthersOk(assign: Assign, ch0: Chains, s: Sys, ch: Chains, s': Sys, ch': Chains, t: TxID)
    requires Inv(assign, ch0, s, ch) && Calm(s, ch, s', ch', t) && MoverOk(assign, s', ch', t)
    ensures TxsOk(assign, s', ch')
  {
    forall u | u in s'.txs && u != t ensures PcOk(assign, s', ch', u, s'.txs[u].pc) {
      PcStable(assign, s, ch, s', ch', u, s.txs[u].pc);
    }
  }

  /** Locks stay, except those of `t` once it is no longer active. */
  ghost predicate LocksStay(s: Sys, s': Sys, t: TxID) {
    forall f :: f in s.locks ==> (f in s'.locks && s'.locks[f] == s.locks[f]) || (s.locks[f] == t && t !in Active(s'))
  }

  ghost predicate HeapKept(s: Sys, s': Sys) {
    forall r :: r in s.heap ==> r in s'.heap && s'.heap[r] == s.heap[r]
  }

  lemma ChainStays(assign: Assign, ch0: Chains, s: Sys, ch: Chains, s': Sys, t: TxID, f: RID)
    requires ChainsOk(assign, ch0, s, ch) && HeapOk(s, ch) && f in ch
    requires HeapKept(s, s') && ActiveShrinks(s, s') && LocksStay(s, s', t) && s.nextTx <= s'.nextTx
    ensures ChainOk(assign, s', f, ch[f], Length0(ch0, f))
  {
    var c := ch[f];
    ChainInHeap(assign, s, f, c, Length0(ch0, f));
    hide ChainOk;
    forall i | 0 <= i < |c|
      ensures s.heap[c[i]].header.tMin < s.nextTx && c[i] in s'.heap && s'.heap[c[i]] == s.heap[c[i]] {}
    ChainStable(assign, s, s', f, c, Length0(ch0, f));
  }

  lemma ChainInHeap(assign: Assign, s: Sys, f: RID, c: seq<RID>, from: nat)
    requires ChainOk(assign, s, f, c, from)
    ensures forall i :: 0 <= i < |c| ==> c[i] in s.heap
  {
  }

  lemma ChainsStay(assign: Assign, ch0: Chains, s: Sys, ch: Chains, s': Sys, t: TxID)
    requires ChainsOk(assign, ch0, s, ch) && HeapOk(s, ch)
    requires HeapKept(s, s') && ActiveShrinks(s, s') && LocksStay(s, s', t) && s.nextTx <= s'.nextTx
    ensures ChainsOk(assign, ch0, s', ch)
  {
    forall f | f in ch { ChainStays(assign, ch0, s, ch, s', t, f); }
  }

  lemma OrphansStay(s: Sys, ch: Chains, s': Sys, t: TxID)
    requires HeapOk(s, ch) && OnlyMoved(s, s', t) && s'.heap == s.heap
    requires t in s.txs ==> !s.txs[t].pc.Orphaned?
    ensures HeapOk(s', ch)
  {
    forall r | r in s'.heap && r !in ch[s'.heap[r].header.first]
      ensures exists u :: u in s'.txs && s'.txs[u].pc.Orphaned? && s'.txs[u].pc.newer == r
    {
      var u :| u in s.txs && s.txs[u].pc.Orphaned? && s.txs[u].pc.newer == r;
      assert s'.txs[u] == s.txs[u];
    }
  }

  lemma QuietIsCalm(s: Sys, ch: Chains, s': Sys, t: TxID)
    requires OnlyMoved(s, s', t) && s'.heap == s.heap && ActiveShrinks(s, s') && LocksStay(s, s', t)
    ensures Calm(s, ch, s', ch, t)
  {
  }

  /** A step that changes neither heap nor chains, and no lock but free ones and those of a finished `t`. */
  lemma QuietStep(assign: Assign, ch0: Chains, s: Sys, ch: Chains, t: TxID, s': Sys)
    requires Inv(assign, ch0, s, ch) && OnlyMoved(s, s', t) && s'.heap == s.heap
    requires t in s.txs ==> !s.txs[t].pc.Orphaned?
    requires ActiveShrinks(s, s') && LocksStay(s, s', t) && LocksOk(s') && MoverOk(assign, s', ch, t)
    ensures Inv(assign, ch0, s', ch)
  {
    assert HeapOk(s', ch) by { OrphansStay(s, ch, s', t); }
    assert ChainsOk(assign, ch0, s', ch) by { ChainsStay(assign, ch0, s, ch, s', t); }
    assert TxsOk(assign, s', ch) by {
      QuietIsCalm(s, ch, s', t);
      OthersOk(assign, ch0, s, ch, s', ch, t);
    }
  }

  // ---------------------------------------------------------------- the events, one by one

  lemma StartStep(assign: Assign, ch0: Chains, s: Sys, ch: Chains)
    requires Inv(assign, ch0, s, ch) && s.nextTx > 0
    ensures Inv(assign, ch0, Begin(s), ch)
  {
    QuietStep(assign, ch0, s, ch, s.nextTx, Begin(s));
  }

  /** Whether a place is a sound one depends on heap, locks and active transactions only. */
  lemma PcMoves(assign: Assign, s: Sys, s': Sys, ch: Chains, t: TxID, pc: Pc)
    requires PcOk(assign, s, ch, t, pc) && s'.heap == s.heap && s'.locks == s.locks && Active(s') == Active(s)
    ensures PcOk(assign, s', ch, t, pc)
  {
  }

  lemma GotoFrame(s: Sys, t: TxID, pc: Pc)
    requires t in s.txs && s.txs[t].state == ACTIVE && !pc.Ending? && !pc.Released? && LocksOk(s)
    ensures var s' := Goto(s, t, pc);
      Active(s') == Active(s) && OnlyMoved(s, s', t) && ActiveShrinks(s, s') && LocksStay(s, s', t) && LocksOk(s')
  {
  }

  /** Walking, choosing and giving up touch neither heap nor locks. */
  lemma MoveStep(assign: Assign, ch0: Chains, s: Sys, ch: Chains, t: TxID, pc: Pc)
    requires Inv(assign, ch0, s, ch) && t in s.txs && s.txs[t].state == ACTIVE && !s.txs[t].pc.Orphaned?
    requires !pc.Ending? && !pc.Released? && PcOk(assign, s, ch, t, pc)
    ensures Inv(assign, ch0, Goto(s, t, pc), ch)
  {
    var s' := Goto(s, t, pc);
    GotoFrame(s, t, pc);
    assert MoverOk(assign, s', ch, t) by { PcMoves(assign, s, s', ch, t, pc); }
    QuietStep(assign, ch0, s, ch, t, s');
  }

  /** What the invariant says of one transaction and of one tuple. */
  lemma Focus(assign: Assign, ch0: Chains, s: Sys, ch: Chains, t: TxID, f: RID)
    requires Inv(assign, ch0, s, ch) && t in s.txs
    ensures PcOk(assign, s, ch, t, s.txs[t].pc) && 0 !in Active(s) && 0 < t < s.nextTx && LocksOk(s)
    ensures s.txs[t].state == ACTIVE <==> !s.txs[t].pc.Ending? && !s.txs[t].pc.Released?
    ensures f in ch ==> ChainOk(assign, s, f, ch[f], Length0(ch0, f)) && f in ch[f] && f in s.heap
    ensures !s.txs[t].pc.Idle? && !s.txs[t].pc.Inserted? && s.txs[t].state == ACTIVE ==> s.txs[t].pc.first in ch
  {
    if f in ch { assert ch[f][0] == f; }
  }

  /** A version of a chain is its last one exactly when its header says so. */
  lemma PlaceInChain(heap: Heap, f: RID, c: seq<RID>, cur: RID) returns (i: nat)
    requires IsChain(heap, f, c) && cur in c
    ensures i < |c| && c[i] == cur
    ensures i < |c| - 1 ==> Linked(heap, cur, c[i + 1]) && heap[cur].header.next == c[i + 1] && c[i + 1] != DELETED
    ensures i == |c| - 1 ==> Ends(heap, cur)
  {
    i :| 0 <= i < |c| && c[i] == cur;
  }

  /** Following `next` keeps a walk from standing behind another active transaction. */
  lemma HopOk(assign: Assign, s: Sys, ch: Chains, t: TxID, f: RID, cur: RID, h: Header, ph: Phase, from: nat)
    requires f in ch && ChainOk(assign, s, f, ch[f], from)
    requires OnWalk(s, ch, t, f, cur, ph) && FreshOrLast(s, cur, h)
    requires Decide(h, t, Active(s)).Hop?
    ensures OnWalk(s, ch, t, f, h.next, ph)
  {
    var i := PlaceInChain(s.heap, f, ch[f], cur);
    assert i < |ch[f]| - 1;
    assert s.heap[ch[f][i + 1]].header.tMin == h.tMax;
  }

  /** What a scan finds visible was not created by another active transaction. */
  lemma FoundIsSeen(assign: Assign, s: Sys, ch: Chains, t: TxID, f: RID, cur: RID, h: Header, from: nat)
    requires f in ch && ChainOk(assign, s, f, ch[f], from)
    requires cur in ch[f] && FreshOrLast(s, cur, h) && IsVisible(h, t, Active(s))
    ensures Seen(s, t, f)
  {
    var i := PlaceInChain(s.heap, f, ch[f], cur);
    assert ch[f][0] == f;
  }

  /** Under the lock only the newest version is visible. */
  lemma LockedReadIsNewest(assign: Assign, s: Sys, ch: Chains, t: TxID, f: RID, cur: RID, from: nat)
    requires f in ch && ChainOk(assign, s, f, ch[f], from) && Holds(s, t, f) && 0 !in Active(s)
    requires cur in ch[f] && IsVisible(s.heap[cur].header, t, Active(s))
    ensures IsNewest(s, ch, f, cur)
  {
    var i := PlaceInChain(s.heap, f, ch[f], cur);
    if i < |ch[f]| - 1 {
      assert false;
    }
  }

  /** Checking the states of both writers leads to a sound place. */
  lemma CheckOk(assign: Assign, s: Sys, ch: Chains, t: TxID, pc: Pc, from: nat)
    requires pc.Fetched? && PcOk(assign, s, ch, t, pc) && 0 !in Active(s)
    requires pc.first in ch && ChainOk(assign, s, pc.first, ch[pc.first], from)
    ensures PcOk(assign, s, ch, t, AfterCheck(pc, t, Active(s)))
  {
    match Decide(pc.hdr, t, Active(s))
    case Nothing =>
    case Hop(next) => HopOk(assign, s, ch, t, pc.first, pc.cur, pc.hdr, pc.phase, from);
    case Found =>
      FoundIsSeen(assign, s, ch, t, pc.first, pc.cur, pc.hdr, from);
      if pc.phase.Reread? { LockedReadIsNewest(assign, s, ch, t, pc.first, pc.cur, from); }
  }

  /** So does one turn of `get_last_version`. */
  lemma FollowOk(assign: Assign, s: Sys, ch: Chains, t: TxID, pc: Pc, from: nat)
    requires pc.Finding? && PcOk(assign, s, ch, t, pc) && pc.cur in s.heap
    requires pc.first in ch && ChainOk(assign, s, pc.first, ch[pc.first], from)
    ensures PcOk(assign, s, ch, t, AfterFollow(pc, s.heap[pc.cur].header))
  {
    var i := PlaceInChain(s.heap, pc.first, ch[pc.first], pc.cur);
  }

  lemma HeaderFetchedStep(assign: Assign, ch0: Chains, s: Sys, ch: Chains, t: TxID)
    requires Inv(assign, ch0, s, ch) && t in s.txs && HeaderFetched(s, t).Some?
    ensures Inv(assign, ch0, HeaderFetched(s, t).value, ch)
  {
    Focus(assign, ch0, s, ch, t, s.txs[t].pc.first);
    MoveStep(assign, ch0, s, ch, t, HeaderFetched(s, t).value.txs[t].pc);
  }

  lemma StatesCheckedStep(assign: Assign, ch0: Chains, s: Sys, ch: Chains, t: TxID)
    requires Inv(assign, ch0, s, ch) && t in s.txs && StatesChecked(s, t).Some?
    ensures Inv(assign, ch0, StatesChecked(s, t).value, ch)
  {
    hide Inv, PcOk, ChainOk;
    var pc := s.txs[t].pc;
    Focus(assign, ch0, s, ch, t, pc.first);
    CheckOk(assign, s, ch, t, pc, Length0(ch0, pc.first));
    MoveStep(assign, ch0, s, ch, t, AfterCheck(pc, t, Active(s)));
  }

  lemma NextFollowedStep(assign: Assign, ch0: Chains, s: Sys, ch: Chains, t: TxID)
    requires Inv(assign, ch0, s, ch) && t in s.txs && NextFollowed(s, t).Some?
    ensures Inv(assign, ch0, NextFollowed(s, t).value, ch)
  {
    hide Inv, PcOk, ChainOk;
    var pc := s.txs[t].pc;
    Focus(assign, ch0, s, ch, t, pc.first);
    FollowOk(assign, s, ch, t, pc, Length0(ch0, pc.first));
    MoveStep(assign, ch0, s, ch, t, AfterFollow(pc, s.heap[pc.cur].header));
  }

  lemma SkippedStep(assign: Assign, ch0: Chains, s: Sys, ch: Chains, t: TxID)
    requires Inv(assign, ch0, s, ch) && t in s.txs && Skipped(s, t).Some?
    ensures Inv(assign, ch0, Skipped(s, t).value, ch)
  {
    Focus(assign, ch0, s, ch, t, s.txs[t].pc.first);
    MoveStep(assign, ch0, s, ch, t, Idle);
  }

  lemma ReadBegunStep(assign: Assign, ch0: Chains, s: Sys, ch: Chains, t: TxID, f: RID, update: bool)
    requires Inv(assign, ch0, s, ch) && t in s.txs && ReadBegun(s, t, f, update).Some?
    ensures Inv(assign, ch0, ReadBegun(s, t, f, update).value, ch)
  {
    hide Inv, PcOk;
    if update {
      var c := s.txs[t].cursor.value;
      CursorStep(assign, ch0, s, ch, t, c.(slot := c.slot + 1));
      WalkBegins(assign, ch0, MoveCursor(s, t, c.(slot := c.slot + 1)), ch, t, f, UpdateScan);
    } else {
      WalkBegins(assign, ch0, s, ch, t, f, Query);
    }
  }

  lemma WalkBegins(assign: Assign, ch0: Chains, s: Sys, ch: Chains, t: TxID, f: RID, ph: Phase)
    requires Inv(assign, ch0, s, ch) && t in s.txs && s.txs[t].pc.Idle? && IsFirst(s, f) && !ph.Reread?
    ensures Inv(assign, ch0, Goto(s, t, At(f, f, ph)), ch)
  {
    hide Inv, PcOk, ChainOk, LocksOk;
    FirstHasChain(assign, ch0, s, ch, f);
    Focus(assign, ch0, s, ch, t, f);
    AtFirst(assign, s, ch, t, f, ph);
    MoveStep(assign, ch0, s, ch, t, At(f, f, ph));
  }

  lemma AtFirst(assign: Assign, s: Sys, ch: Chains, t: TxID, f: RID, ph: Phase)
    requires f in ch && f in ch[f] && f in s.heap && !ph.Reread?
    ensures PcOk(assign, s, ch, t, At(f, f, ph))
  {
  }

  lemma FirstHasChain(assign: Assign, ch0: Chains, s: Sys, ch: Chains, f: RID)
    requires Inv(assign, ch0, s, ch) && IsFirst(s, f)
    ensures f in ch
  {
    hide TxsOk, LocksOk, ChainsOk;
  }

  /** Moving the cursor of a scan concerns nobody else. */
  lemma CursorStep(assign: Assign, ch0: Chains, s: Sys, ch: Chains, t: TxID, c: Cursor)
    requires Inv(assign, ch0, s, ch) && t in s.txs && s.txs[t].pc.Idle?
    ensures Inv(assign, ch0, MoveCursor(s, t, c), ch)
  {
    var s' := MoveCursor(s, t, c);
    Focus(assign, ch0, s, ch, t, RID(0, 0));
    assert Active(s') == Active(s);
    hide HeapOk, ChainsOk;
    QuietStep(assign, ch0, s, ch, t, s');
  }

  lemma ComputingStep(assign: Assign, ch0: Chains, s: Sys, ch: Chains, t: TxID, rec: Record)
    requires Inv(assign, ch0, s, ch) && t in s.txs && Computing(assign, s, t, rec).Some?
    ensures Inv(assign, ch0, Computing(assign, s, t, rec).value, ch)
  {
    hide Inv, PcOk, ChainOk;
    var pc := s.txs[t].pc;
    Focus(assign, ch0, s, ch, t, pc.first);
    MoveStep(assign, ch0, s, ch, t, Finding(pc.first, pc.first, pc.src, rec));
  }

  lemma InsertNotedStep(assign: Assign, ch0: Chains, s: Sys, ch: Chains, t: TxID)
    requires Inv(assign, ch0, s, ch) && t in s.txs && InsertNoted(s, t).Some?
    ensures Inv(assign, ch0, InsertNoted(s, t).value, ch)
  {
    QuietStep(assign, ch0, s, ch, t, InsertNoted(s, t).value);
  }

  lemma LockTakenStep(assign: Assign, ch0: Chains, s: Sys, ch: Chains, t: TxID)
    requires Inv(assign, ch0, s, ch) && t in s.txs && LockTaken(s, t).Some?
    ensures Inv(assign, ch0, LockTaken(s, t).value, ch)
  {
    var f := s.txs[t].pc.first;
    Focus(assign, ch0, s, ch, t, f);
    if f in s.locks {
      MoveStep(assign, ch0, s, ch, t, At(f, f, Reread));
    } else {
      LockGranted(assign, ch0, s, ch, t, f);
    }
  }

  lemma LockGrantedFrame(s: Sys, ch: Chains, t: TxID, f: RID)
    requires LocksOk(s) && t in s.txs && s.txs[t].pc == Matched(f) && f !in s.locks && s.txs[t].state == ACTIVE
    requires f in ch && f in ch[f] && Seen(s, t, f)
    ensures var s' := LockTaken(s, t).value;
      && Active(s') == Active(s) && OnlyMoved(s, s', t) && s'.heap == s.heap && s'.nextTx == s.nextTx
      && LocksStay(s, s', t) && LocksOk(s') && OnWalk(s', ch, t, f, f, Reread)
      && t in s'.txs && s'.txs[t].pc == At(f, f, Reread) && s'.txs[t].state == ACTIVE
  {
    assert Active(LockTaken(s, t).value) == Active(s);
  }

  lemma LockGranted(assign: Assign, ch0: Chains, s: Sys, ch: Chains, t: TxID, f: RID)
    requires Inv(assign, ch0, s, ch) && t in s.txs && s.txs[t].pc == Matched(f) && f !in s.locks
    requires s.txs[t].state == ACTIVE && f in ch && f in ch[f] && Seen(s, t, f)
    ensures Inv(assign, ch0, LockTaken(s, t).value, ch)
  {
    Focus(assign, ch0, s, ch, t, f);
    hide Inv, PcOk, LocksOk, LockTaken, LocksStay, OnlyMoved;
    LockGrantedFrame(s, ch, t, f);
    QuietStep(assign, ch0, s, ch, t, LockTaken(s, t).value);
  }

  lemma EndedStep(assign: Assign, ch0: Chains, s: Sys, ch: Chains, t: TxID)
    requires Inv(assign, ch0, s, ch) && t in s.txs && Ended(s, t).Some?
    ensures Inv(assign, ch0, Ended(s, t).value, ch)
  {
    hide HeapOk, ChainsOk;
    QuietStep(assign, ch0, s, ch, t, Ended(s, t).value);
  }

  lemma LocksReleasedStep(assign: Assign, ch0: Chains, s: Sys, ch: Chains, t: TxID)
    requires Inv(assign, ch0, s, ch) && t in s.txs && LocksReleased(s, t).Some?
    ensures Inv(assign, ch0, LocksReleased(s, t).value, ch)
  {
    QuietStep(assign, ch0, s, ch, t, LocksReleased(s, t).value);
  }

  lemma ErasedStep(assign: Assign, ch0: Chains, s: Sys, ch: Chains, t: TxID)
    requires Inv(assign, ch0, s, ch) && t in s.txs && Erased(s, t).Some?
    ensures Inv(assign, ch0, Erased(s, t).value, ch)
  {
    QuietStep(assign, ch0, s, ch, t, Erased(s, t).value);
  }

  // ---------------------------------------------------------------- the three steps that write the heap

  /** A new version at a free RID disturbs nobody, whether it starts a chain or is still an orphan. */
  lemma NewVersionIsCalm(s: Sys, ch: Chains, s': Sys, ch': Chains, t: TxID, at: RID, v: Version)
    requires at !in s.heap && s'.heap == s.heap[at := v] && s'.locks == s.locks && OnlyMoved(s, s', t)
    requires Active(s') == Active(s) && (ch' == ch || (at !in ch && ch' == ch[at := [at]]))
    ensures Calm(s, ch, s', ch', t)
  {
    assert HeapGrows(s, s') && ActiveShrinks(s, s') && ChainsGrow(ch, ch');
    hide HeapGrows, ActiveShrinks, ChainsGrow, OnlyMoved, Active;
    forall u | u in s.txs && u != t ensures LockedAlone(s, ch, s', ch', u) {}
  }

  lemma PageInsertHeap(s: Sys, ch: Chains, s': Sys, t: TxID, at: RID, v: Version)
    requires HeapOk(s, ch) && at !in s.heap && at !in ch && at.Proper()
    requires v.header.first == at && v.header.tMin < s.nextTx && s'.heap == s.heap[at := v]
    requires OnlyMoved(s, s', t) && t in s.txs && !s.txs[t].pc.Orphaned?
    ensures HeapOk(s', ch[at := [at]])
  {
    var ch' := ch[at := [at]];
    forall r | r in s'.heap && r !in ch'[s'.heap[r].header.first]
      ensures exists u :: u in s'.txs && s'.txs[u].pc.Orphaned? && s'.txs[u].pc.newer == r
    {
      var u :| u in s.txs && s.txs[u].pc.Orphaned? && s.txs[u].pc.newer == r;
      assert s'.txs[u] == s.txs[u];
    }
  }

  /** Putting a version at a free RID and moving `t` along. */
  lemma NewVersionFrame(s: Sys, t: TxID, at: RID, v: Version, pc: Pc)
    requires t in s.txs && s.txs[t].state == ACTIVE && at !in s.heap && LocksOk(s) && !pc.Ending? && !pc.Released?
    ensures var s' := Goto(s.(heap := s.heap[at := v]), t, pc);
      && Active(s') == Active(s) && OnlyMoved(s, s', t) && ActiveShrinks(s, s') && HeapKept(s, s')
      && LocksStay(s, s', t) && LocksOk(s') && t in s'.txs && s'.txs[t].pc == pc && s'.txs[t].state == ACTIVE
      && s'.heap == s.heap[at := v] && s'.locks == s.locks && s'.nextTx == s.nextTx
  {
    assert Active(Goto(s.(heap := s.heap[at := v]), t, pc)) == Active(s);
  }

  lemma NewChainOk(assign: Assign, s: Sys, at: RID, t: TxID, rec: Record, from: nat)
    requires at in s.heap && s.heap[at] == Version(NewHeader(t, at, at), rec) && at.Proper() && 0 < s.nextTx
    ensures ChainOk(assign, s, at, [at], from)
  {
  }

  lemma InsertedOk(assign: Assign, s: Sys, ch: Chains, t: TxID, at: RID)
    ensures PcOk(assign, s, ch, t, Inserted(at)) && PcOk(assign, s, ch, t, Idle)
  {
  }

  lemma PageInsertChains(assign: Assign, ch0: Chains, s: Sys, ch: Chains, s': Sys, t: TxID, at: RID, rec: Record)
    requires ChainsOk(assign, ch0, s, ch) && HeapOk(s, ch) && 0 < s'.nextTx && at.Proper()
    requires HeapKept(s, s') && ActiveShrinks(s, s') && LocksStay(s, s', t) && s.nextTx <= s'.nextTx
    requires at in s'.heap && s'.heap[at] == Version(NewHeader(t, at, at), rec)
    ensures ChainsOk(assign, ch0, s', ch[at := [at]])
  {
    hide ChainOk, HeapOk, HeapKept, ActiveShrinks, LocksStay;
    ChainsStay(assign, ch0, s, ch, s', t);
    NewChainOk(assign, s', at, t, rec, Length0(ch0, at));
  }

  lemma PageInsertStep(assign: Assign, ch0: Chains, s: Sys, ch: Chains, t: TxID, at: RID, rec: Record)
    requires Inv(assign, ch0, s, ch) && t in s.txs && PageInsert(s, t, at, rec).Some?
    ensures Inv(assign, ch0, PageInsert(s, t, at, rec).value, ch[at := [at]])
  {
    var s', ch', v := PageInsert(s, t, at, rec).value, ch[at := [at]], Version(NewHeader(t, at, at), rec);
    hide TxsOk, HeapOk, LocksOk, ChainOk, ChainsOk, PcOk, OnlyMoved, LocksStay, HeapKept, ActiveShrinks, Calm;
    Focus(assign, ch0, s, ch, t, at);
    NewVersionFrame(s, t, at, v, Inserted(at));
    PageInsertHeap(s, ch, s', t, at, v);
    PageInsertChains(assign, ch0, s, ch, s', t, at, rec);
    InsertedOk(assign, s', ch', t, at);
    NewVersionIsCalm(s, ch, s', ch', t, at, v);
    OthersOk(assign, ch0, s, ch, s', ch', t);
  }

  lemma VersionInsertedHeap(s: Sys, ch: Chains, s': Sys, t: TxID, at: RID, v: Version)
    requires HeapOk(s, ch) && at !in s.heap && at.Proper()
    requires v.header.first in ch && v.header.first != at && v.header.tMin < s.nextTx && s'.heap == s.heap[at := v]
    requires OnlyMoved(s, s', t) && t in s.txs && !s.txs[t].pc.Orphaned?
    requires t in s'.txs && s'.txs[t].pc.Orphaned? && s'.txs[t].pc.newer == at
    ensures HeapOk(s', ch)
  {
    forall r | r in s'.heap && r !in ch[s'.heap[r].header.first]
      ensures exists u :: u in s'.txs && s'.txs[u].pc.Orphaned? && s'.txs[u].pc.newer == r
    {
      if r != at {
        var u :| u in s.txs && s.txs[u].pc.Orphaned? && s.txs[u].pc.newer == r;
        assert s'.txs[u] == s.txs[u];
      }
    }
  }

  lemma VersionInsertedPlace(assign: Assign, s: Sys, ch: Chains, s': Sys, t: TxID, at: RID, pc: Pc)
    requires pc.Located? && PcOk(assign, s, ch, t, pc) && at !in s.heap && at.Proper()
    requires forall i :: 0 <= i < |ch[pc.first]| ==> ch[pc.first][i] in s.heap
    requires s'.heap == s.heap[at := Version(NewHeader(t, at, pc.first), pc.rec)]
    requires s'.locks == s.locks && Active(s') == Active(s)
    ensures PcOk(assign, s', ch, t, Orphaned(pc.first, pc.last, pc.src, at))
  {
  }

  lemma VersionInsertedStep(assign: Assign, ch0: Chains, s: Sys, ch: Chains, t: TxID, at: RID)
    requires Inv(assign, ch0, s, ch) && t in s.txs && VersionInserted(s, t, at).Some?
    ensures Inv(assign, ch0, VersionInserted(s, t, at).value, ch)
  {
    var s', pc := VersionInserted(s, t, at).value, s.txs[t].pc;
    var v := Version(NewHeader(t, at, pc.first), pc.rec);
    Focus(assign, ch0, s, ch, t, pc.first);
    assert pc.first in s.heap && IsChain(s.heap, pc.first, ch[pc.first]);
    hide TxsOk, HeapOk, LocksOk, ChainOk, ChainsOk, PcOk, OnlyMoved, LocksStay, HeapKept, ActiveShrinks;
    NewVersionFrame(s, t, at, v, s'.txs[t].pc);
    assert HeapOk(s', ch) by { VersionInsertedHeap(s, ch, s', t, at, v); }
    assert ChainsOk(assign, ch0, s', ch) by { ChainsStay(assign, ch0, s, ch, s', t); }
    assert TxsOk(assign, s', ch) by {
      NewVersionIsCalm(s, ch, s', ch, t, at, v);
      VersionInsertedPlace(assign, s, ch, s', t, at, pc);
      OthersOk(assign, ch0, s, ch, s', ch, t);
    }
  }

  // ---------------------------------------------------------------- linking

  /** The new version at the end of its chain. */
  lemma LinkedIsChain(heap: Heap, f: RID, c: seq<RID>, t: TxID, r: RID)
    requires IsChain(heap, f, c) && heap[Last(c)].header.tMax == 0 && t > 0
    requires r in heap && r !in c && heap[r].header == NewHeader(t, r, f) && r.Proper()
    ensures IsChain(LinkVersion(heap, Last(c), t, r), f, c + [r])
  {
    var heap', c' := LinkVersion(heap, Last(c), t, r), c + [r];
    forall i | 0 <= i < |c'| - 1 ensures Linked(heap', c'[i], c'[i + 1]) {
      if i < |c| - 1 { assert Linked(heap, c[i], c[i + 1]) && c[i] != Last(c); }
    }
  }

  lemma LinkedChainOk(assign: Assign, s: Sys, s': Sys, f: RID, c: seq<RID>, from: nat, t: TxID, r: RID)
    requires ChainOk(assign, s, f, c, from) && Holds(s, t, f) && t in Active(s)
    requires r in s.heap && r !in c && s.heap[r].header == NewHeader(t, r, f) && r.Proper()
    requires s.heap[Last(c)].header.tMax == 0 && assign(s.heap[Last(c)].record, s.heap[r].record)
    requires s'.heap == LinkVersion(s.heap, Last(c), t, r) && s'.locks == s.locks && Active(s') == Active(s)
    requires 0 < t && 0 < s'.nextTx
    ensures ChainOk(assign, s', f, c + [r], from)
  {
    var c' := c + [r];
    LinkedIsChain(s.heap, f, c, t, r);
    assert forall i :: 0 <= i < |c| ==> c[i] in s.heap && s'.heap[c[i]].header.tMin == s.heap[c[i]].header.tMin
                                        && s'.heap[c[i]].record == s.heap[c[i]].record;
    assert s'.heap[r] == s.heap[r] && Last(c') == r && c[0] == f;
    hide IsChain, LinkVersion;
    forall i, j | 0 <= i < j < |c'| && s'.heap[c'[i]].header.tMin in Active(s')
      ensures s'.heap[c'[j]].header.tMin == s'.heap[c'[i]].header.tMin
    {
      if j == |c| && i == 0 { assert Seen(s, t, f); }
    }
  }

  /** Linking touches one tuple, and nobody else holds its lock. */
  lemma LinkIsCalm(s: Sys, ch: Chains, s': Sys, ch': Chains, t: TxID, f: RID, last: RID, r: RID)
    requires f in ch && Holds(s, t, f) && last in s.heap && s.heap[last].header.first == f && t != 0
    requires s.heap[last].header.tMax == 0 && s.heap[last].header.next == last
    requires s'.heap == LinkVersion(s.heap, last, t, r) && s'.locks == s.locks && OnlyMoved(s, s', t)
    requires Active(s') == Active(s) && ch' == ch[f := ch[f] + [r]]
    ensures Calm(s, ch, s', ch', t)
  {
  }

  lemma LinkHeap(s: Sys, ch: Chains, s': Sys, t: TxID, f: RID, last: RID, r: RID)
    requires HeapOk(s, ch) && f in ch && last in s.heap && s'.heap == LinkVersion(s.heap, last, t, r)
    requires r in s.heap && s.heap[r].header.first == f
    requires OnlyMoved(s, s', t) && t in s.txs && s.txs[t].pc.Orphaned? && s.txs[t].pc.newer == r
    ensures HeapOk(s', ch[f := ch[f] + [r]])
  {
    var ch' := ch[f := ch[f] + [r]];
    forall x | x in s'.heap && x !in ch'[s'.heap[x].header.first]
      ensures exists u :: u in s'.txs && s'.txs[u].pc.Orphaned? && s'.txs[u].pc.newer == x
    {
      assert x != r && x !in ch[s.heap[x].header.first];
      var u :| u in s.txs && s.txs[u].pc.Orphaned? && s.txs[u].pc.newer == x;
      assert s'.txs[u] == s.txs[u];
    }
  }

  /** The other chains do not contain the relinked version. */
  lemma LinkOthers(assign: Assign, s: Sys, s': Sys, f: RID, last: RID, t: TxID, r: RID, g: RID, c: seq<RID>, from: nat)
    requires ChainOk(assign, s, g, c, from) && g != f
    requires forall x :: x in s.heap ==> s.heap[x].header.tMin < s.nextTx
    requires last in s.heap && s.heap[last].header.first == f && s'.heap == LinkVersion(s.heap, last, t, r)
    requires s'.locks == s.locks && Active(s') == Active(s) && s'.nextTx == s.nextTx
    ensures ChainOk(assign, s', g, c, from)
  {
    assert forall i :: 0 <= i < |c| ==> c[i] in s'.heap && s'.heap[c[i]] == s.heap[c[i]];
    hide LinkVersion, IsChain, OneActiveWriter;
    ChainStable(assign, s, s', g, c, from);
  }

  lemma RelinkFrame(s: Sys, t: TxID)
    requires t in s.txs && s.txs[t].state == ACTIVE && LocksOk(s) && Relinked(s, t).Some?
    ensures var s', pc := Relinked(s, t).value, s.txs[t].pc;
      && Active(s') == Active(s) && t in Active(s) && OnlyMoved(s, s', t) && LocksOk(s')
      && t in s'.txs && s'.txs[t].pc == Idle && s'.txs[t].state == ACTIVE && pc.Orphaned? && pc.last in s.heap
      && s'.heap == LinkVersion(s.heap, pc.last, t, pc.newer) && s'.locks == s.locks && s'.nextTx == s.nextTx
  {
    assert Active(Relinked(s, t).value) == Active(s);
  }

  /** What a transaction about to link knows of its tuple. */
  lemma RelinkFacts(assign: Assign, ch0: Chains, s: Sys, ch: Chains, t: TxID)
    requires Inv(assign, ch0, s, ch) && t in s.txs && s.txs[t].pc.Orphaned?
    ensures var pc := s.txs[t].pc;
      && pc.first in ch && Holds(s, t, pc.first) && ch[pc.first] != [] && pc.last == Last(ch[pc.first])
      && pc.last in s.heap && pc.newer in s.heap && pc.newer.Proper()
      && s.heap[pc.last].header.first == pc.first && s.heap[pc.last].header.next == pc.last
      && s.heap[pc.last].header.tMax == 0 && s.heap[pc.newer].header == NewHeader(t, pc.newer, pc.first)
      && pc.newer !in ch[pc.first] && assign(s.heap[pc.last].record, s.heap[pc.newer].record)
      && (forall x :: x in s.heap ==> s.heap[x].header.tMin < s.nextTx)
  {
    var f := s.txs[t].pc.first;
    Focus(assign, ch0, s, ch, t, f);
    hide LocksOk, TxsOk, ChainsOk, Inv, OneActiveWriter, Computed, Active;
    assert IsChain(s.heap, f, ch[f]);
    assert Ends(s.heap, Last(ch[f]));
    hide IsChain;
  }

  lemma RelinkedStep(assign: Assign, ch0: Chains, s: Sys, ch: Chains, t: TxID)
    requires Inv(assign, ch0, s, ch) && t in s.txs && Relinked(s, t).Some?
    ensures var pc := s.txs[t].pc;
      pc.first in ch && Inv(assign, ch0, Relinked(s, t).value, ch[pc.first := ch[pc.first] + [pc.newer]])
  {
    hide TxsOk, HeapOk, LocksOk, ChainOk, PcOk, OnlyMoved, LinkVersion, Holds;
    var s', pc := Relinked(s, t).value, s.txs[t].pc;
    var f, last, r := pc.first, pc.last, pc.newer;
    Focus(assign, ch0, s, ch, t, f);
    RelinkFacts(assign, ch0, s, ch, t);
    RelinkFrame(s, t);
    var ch' := ch[f := ch[f] + [r]];
    assert HeapOk(s', ch') by { LinkHeap(s, ch, s', t, f, last, r); }
    assert ChainsOk(assign, ch0, s', ch') by {
      forall g | g in ch' ensures ChainOk(assign, s', g, ch'[g], Length0(ch0, g)) {
        if g == f {
          LinkedChainOk(assign, s, s', f, ch[f], Length0(ch0, f), t, r);
        } else {
          LinkOthers(assign, s, s', f, last, t, r, g, ch[g], Length0(ch0, g));
        }
      }
    }
    assert TxsOk(assign, s', ch') by {
      InsertedOk(assign, s', ch', t, r);
      LinkIsCalm(s, ch, s', ch', t, f, last, r);
      OthersOk(assign, ch0, s, ch, s', ch', t);
    }
  }
}
