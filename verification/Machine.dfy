/**
 * READ COMMITTED transactions over one heap file, as a machine whose steps are the atomic pieces of the
 * code: one header fetch, one look at the transaction states, one lock table access, one page insert,
 * one header link. Any transaction may run between any two steps of another.
 */
module Machine {
  import opened Model
  import opened Versions
  import opened Pages

  /** Why a chain is being walked: a scan (of a query or of an UPDATE) or the re-read under the lock. */
  datatype Phase = Query | UpdateScan | Reread

  /** What a transaction is in the middle of. */
  datatype Pc =
    | Idle
    | Inserted(rid: RID)
    | At(first: RID, cur: RID, phase: Phase)
    | Fetched(first: RID, cur: RID, hdr: Header, phase: Phase)
    | Matched(first: RID)
    | Chosen(first: RID, src: RID)
    | Finding(first: RID, cur: RID, src: RID, rec: Record)
    | Located(first: RID, last: RID, src: RID, rec: Record)
    | Orphaned(first: RID, last: RID, src: RID, newer: RID)
    | Ending
    | Released

  /** The slot at which the scan of an UPDATE looks next; the pages were counted when it was opened. */
  datatype Cursor = Cursor(page: nat, slot: nat, pages: nat) {
    function Place(): RID {
      RID(page, slot)
    }
  }

  datatype Tx = Tx(state: TxState, writeSet: set<RID>, pc: Pc, cursor: Option<Cursor>)

  datatype Sys = Sys(heap: Heap, locks: map<RID, TxID>, txs: map<TxID, Tx>, nextTx: TxID)

  /** The SET clauses in use: which new record a statement may compute from an old one. */
  type Assign = (Record, Record) -> bool

  datatype Event =
    | Start
    | InsertPage(tx: TxID, at: RID, rec: Record)
    | NoteInsert(tx: TxID)
    | OpenScan(tx: TxID, pages: nat)
    | PassSlot(tx: TxID)
    | PassPage(tx: TxID)
    | BeginRead(tx: TxID, first: RID, update: bool)
    | Fetch(tx: TxID)
    | Check(tx: TxID)
    | Lock(tx: TxID)
    | Skip(tx: TxID)
    | Compute(tx: TxID, rec: Record)
    | FollowNext(tx: TxID)
    | InsertVersion(tx: TxID, at: RID)
    | Link(tx: TxID)
    | End(tx: TxID)
    | Release(tx: TxID)
    | Erase(tx: TxID)

  function Active(s: Sys): set<TxID> {
    set t | t in s.txs && s.txs[t].state == ACTIVE
  }

  function Goto(s: Sys, t: TxID, pc: Pc): Sys
    requires t in s.txs
  {
    s.(txs := s.txs[t := s.txs[t].(pc := pc)])
  }

  function Remember(s: Sys, t: TxID, r: RID): Sys
    requires t in s.txs
  {
    s.(txs := s.txs[t := s.txs[t].(writeSet := s.txs[t].writeSet + {r})])
  }

  // ---------------------------------------------------------------- the steps; None: not enabled

  function Begin(s: Sys): Sys {
    s.(txs := s.txs[s.nextTx := Tx(ACTIVE, {}, Idle, None)], nextTx := s.nextTx + 1)
  }

  function PageInsert(s: Sys, t: TxID, at: RID, rec: Record): Option<Sys>
    requires t in s.txs
  {
    if s.txs[t].pc.Idle? && at.Proper() && at !in s.heap then
      Some(Goto(s.(heap := s.heap[at := Version(NewHeader(t, at, at), rec)]), t, Inserted(at)))
    else None
  }

  function InsertNoted(s: Sys, t: TxID): Option<Sys>
    requires t in s.txs
  {
    if s.txs[t].pc.Inserted? then Some(Goto(Remember(s, t, s.txs[t].pc.rid), t, Idle)) else None
  }

  function MoveCursor(s: Sys, t: TxID, c: Cursor): Sys
    requires t in s.txs
  {
    s.(txs := s.txs[t := s.txs[t].(cursor := Some(c))])
  }

  /** The scan of an UPDATE begins at the first slot; every stored version is on one of the counted pages. */
  function ScanOpened(s: Sys, t: TxID, pages: nat): Option<Sys>
    requires t in s.txs
  {
    if s.txs[t].pc.Idle? && forall r :: r in s.heap ==> r.pageNum < pages then
      Some(MoveCursor(s, t, Cursor(0, 0, pages)))
    else None
  }

  predicate IsFirst(s: Sys, r: RID) {
    r in s.heap && s.heap[r].header.first == r
  }

  /** The scan passes a slot that does not hold the first version of a tuple. */
  function SlotPassed(s: Sys, t: TxID): Option<Sys>
    requires t in s.txs
  {
    match s.txs[t].cursor
    case None => None
    case Some(c) =>
      if s.txs[t].pc.Idle? && c.page < c.pages && c.slot < MAX_SLOTS && !IsFirst(s, c.Place()) then
        Some(MoveCursor(s, t, c.(slot := c.slot + 1)))
      else None
  }

  /** Behind the last slot of its page, the scan goes on to the next page. */
  function PagePassed(s: Sys, t: TxID): Option<Sys>
    requires t in s.txs
  {
    match s.txs[t].cursor
    case None => None
    case Some(c) =>
      if s.txs[t].pc.Idle? && c.page < c.pages
         && forall r :: r in s.heap && r.pageNum == c.page ==> r.dirSlot < c.slot then
        Some(MoveCursor(s, t, Cursor(c.page + 1, 0, c.pages)))
      else None
  }

  /** A query reads any tuple; the scan of an UPDATE stops when the next slot holds the first version of one. */
  function ReadBegun(s: Sys, t: TxID, f: RID, update: bool): Option<Sys>
    requires t in s.txs
  {
    if !s.txs[t].pc.Idle? || !IsFirst(s, f) then None
    else if !update then Some(Goto(s, t, At(f, f, Query)))
    else
      match s.txs[t].cursor
      case None => None
      case Some(c) =>
        if f == c.Place() && c.page < c.pages && c.slot < MAX_SLOTS then
          Some(Goto(MoveCursor(s, t, c.(slot := c.slot + 1)), t, At(f, f, UpdateScan)))
        else None
  }

  function HeaderFetched(s: Sys, t: TxID): Option<Sys>
    requires t in s.txs
  {
    var pc := s.txs[t].pc;
    if pc.At? && pc.cur in s.heap then
      Some(Goto(s, t, Fetched(pc.first, pc.cur, s.heap[pc.cur].header, pc.phase)))
    else None
  }

  function AfterCheck(pc: Pc, t: TxID, active: set<TxID>): Pc
    requires pc.Fetched?
  {
    match Decide(pc.hdr, t, active)
    case Hop(next) => At(pc.first, next, pc.phase)
    case Nothing => Idle
    case Found =>
      match pc.phase
      case Query => Idle
      case UpdateScan => Matched(pc.first)
      case Reread => Chosen(pc.first, pc.cur)
  }

  /** The states of both writers are looked up only now, after the header was fetched. */
  function StatesChecked(s: Sys, t: TxID): Option<Sys>
    requires t in s.txs
  {
    if s.txs[t].pc.Fetched? then Some(Goto(s, t, AfterCheck(s.txs[t].pc, t, Active(s)))) else None
  }

  /** The WHERE clause rejects the scanned or the re-read record. */
  function Skipped(s: Sys, t: TxID): Option<Sys>
    requires t in s.txs
  {
    if s.txs[t].pc.Matched? || s.txs[t].pc.Chosen? then Some(Goto(s, t, Idle)) else None
  }

  function LockTaken(s: Sys, t: TxID): Option<Sys>
    requires t in s.txs
  {
    var pc := s.txs[t].pc;
    if !pc.Matched? then None
    else if pc.first !in s.locks then
      Some(Goto(Remember(s.(locks := s.locks[pc.first := t]), t, pc.first), t, At(pc.first, pc.first, Reread)))
    else if s.locks[pc.first] == t then
      Some(Goto(s, t, At(pc.first, pc.first, Reread)))
    else None
  }

  function Computing(assign: Assign, s: Sys, t: TxID, rec: Record): Option<Sys>
    requires t in s.txs
  {
    var pc := s.txs[t].pc;
    if pc.Chosen? && pc.src in s.heap && assign(s.heap[pc.src].record, rec) then
      Some(Goto(s, t, Finding(pc.first, pc.first, pc.src, rec)))
    else None
  }

  /** One turn of `get_last_version`. */
  function AfterFollow(pc: Pc, h: Header): Pc
    requires pc.Finding?
  {
    if h.tMax == 0 then Located(pc.first, pc.cur, pc.src, pc.rec)
    else if h.next == DELETED then Idle
    else Finding(pc.first, h.next, pc.src, pc.rec)
  }

  function NextFollowed(s: Sys, t: TxID): Option<Sys>
    requires t in s.txs
  {
    var pc := s.txs[t].pc;
    if pc.Finding? && pc.cur in s.heap then Some(Goto(s, t, AfterFollow(pc, s.heap[pc.cur].header))) else None
  }

  function VersionInserted(s: Sys, t: TxID, at: RID): Option<Sys>
    requires t in s.txs
  {
    var pc := s.txs[t].pc;
    if pc.Located? && at.Proper() && at !in s.heap then
      Some(Goto(s.(heap := s.heap[at := Version(NewHeader(t, at, pc.first), pc.rec)]), t,
                Orphaned(pc.first, pc.last, pc.src, at)))
    else None
  }

  function Relinked(s: Sys, t: TxID): Option<Sys>
    requires t in s.txs
  {
    var pc := s.txs[t].pc;
    if pc.Orphaned? && pc.last in s.heap then
      Some(Goto(s.(heap := LinkVersion(s.heap, pc.last, t, pc.newer)), t, Idle))
    else None
  }

  /** The state becomes COMMITTED: commit of an idle transaction, or abort of one whose lock wait timed out. */
  function Ended(s: Sys, t: TxID): Option<Sys>
    requires t in s.txs
  {
    if s.txs[t].pc.Idle? || s.txs[t].pc.Matched? then
      Some(s.(txs := s.txs[t := s.txs[t].(state := COMMITTED, pc := Ending)]))
    else None
  }

  function LocksReleased(s: Sys, t: TxID): Option<Sys>
    requires t in s.txs
  {
    if s.txs[t].pc.Ending? then
      Some(Goto(s.(locks := ReleaseAll(s.locks, t, s.txs[t].writeSet)), t, Released))
    else None
  }

  function Erased(s: Sys, t: TxID): Option<Sys>
    requires t in s.txs
  {
    if s.txs[t].pc.Released? then Some(s.(txs := s.txs - {t})) else None
  }

  /** The state after event `e`, or None when the event is not enabled. */
  function Next(assign: Assign, s: Sys, e: Event): Option<Sys> {
    if e.Start? then Some(Begin(s))
    else if e.tx !in s.txs then None
    else
      match e
      case InsertPage(t, at, rec) => PageInsert(s, t, at, rec)
      case NoteInsert(t) => InsertNoted(s, t)
      case OpenScan(t, pages) => ScanOpened(s, t, pages)
      case PassSlot(t) => SlotPassed(s, t)
      case PassPage(t) => PagePassed(s, t)
      case BeginRead(t, f, update) => ReadBegun(s, t, f, update)
      case Fetch(t) => HeaderFetched(s, t)
      case Check(t) => StatesChecked(s, t)
      case Lock(t) => LockTaken(s, t)
      case Skip(t) => Skipped(s, t)
      case Compute(t, rec) => Computing(assign, s, t, rec)
      case FollowNext(t) => NextFollowed(s, t)
      case InsertVersion(t, at) => VersionInserted(s, t, at)
      case Link(t) => Relinked(s, t)
      case End(t) => Ended(s, t)
      case Release(t) => LocksReleased(s, t)
      case Erase(t) => Erased(s, t)
  }

  // ---------------------------------------------------------------- the invariant

  /** The chains after event `e`: an insert starts one, a link extends one. */
  ghost function NextChains(s: Sys, ch: Chains, e: Event): Chains {
    if e.InsertPage? then ch[e.at := [e.at]]
    else if e.Link? && e.tx in s.txs && s.txs[e.tx].pc.Orphaned? && s.txs[e.tx].pc.first in ch then
      var pc := s.txs[e.tx].pc;
      ch[pc.first := ch[pc.first] + [pc.newer]]
    else ch
  }

  /** `t` works on tuple `f` without a lock only after seeing that its creator is not another active transaction. */
  ghost predicate Seen(s: Sys, t: TxID, f: RID) {
    f in s.heap && Trusted(s.heap[f].header.tMin, t, Active(s))
  }

  ghost predicate Holds(s: Sys, t: TxID, f: RID) {
    f in s.locks && s.locks[f] == t && Seen(s, t, f)
  }

  /** A walk never stands behind a version of another active transaction, unless that one created the tuple. */
  ghost predicate OnWalk(s: Sys, ch: Chains, t: TxID, f: RID, cur: RID, ph: Phase) {
    && f in ch && cur in ch[f] && f in s.heap && cur in s.heap
    && (Trusted(s.heap[cur].header.tMin, t, Active(s)) || s.heap[cur].header.tMin == s.heap[f].header.tMin)
    && (ph.Reread? ==> Holds(s, t, f))
  }

  /** The fetched header is the current one, or the current one before the version was superseded. */
  ghost predicate FreshOrLast(s: Sys, cur: RID, h: Header)
    requires cur in s.heap
  {
    var now := s.heap[cur].header;
    h == now || (h == now.(tMax := 0, next := cur) && now.tMax != 0)
  }

  ghost predicate IsNewest(s: Sys, ch: Chains, f: RID, src: RID) {
    && f in ch && ch[f] != [] && src == Last(ch[f]) && src in s.heap
    && s.heap[src].header.tMax == 0
  }

  ghost predicate PcOk(assign: Assign, s: Sys, ch: Chains, t: TxID, pc: Pc) {
    match pc
    case Idle => true
    case Inserted(r) => true
    case At(f, cur, ph) => OnWalk(s, ch, t, f, cur, ph)
    case Fetched(f, cur, h, ph) =>
      OnWalk(s, ch, t, f, cur, ph) && FreshOrLast(s, cur, h) && (ph.Reread? ==> h == s.heap[cur].header)
    case Matched(f) => f in ch && Seen(s, t, f)
    case Chosen(f, src) => Holds(s, t, f) && IsNewest(s, ch, f, src)
    case Finding(f, cur, src, rec) =>
      && Holds(s, t, f) && IsNewest(s, ch, f, src) && cur in ch[f] && assign(s.heap[src].record, rec)
    case Located(f, last, src, rec) =>
      && Holds(s, t, f) && IsNewest(s, ch, f, src) && last == src && assign(s.heap[src].record, rec)
    case Orphaned(f, last, src, r) =>
      && Holds(s, t, f) && IsNewest(s, ch, f, src) && last == src && r in s.heap
      && s.heap[r].header == NewHeader(t, r, f) && r != f && r !in ch[f] && r.Proper()
      && assign(s.heap[src].record, s.heap[r].record)
    case Ending => true
    case Released => true
  }

  ghost predicate TxsOk(assign: Assign, s: Sys, ch: Chains) {
    && 0 !in s.txs && (forall t :: t in s.txs ==> t < s.nextTx)
    && (forall t :: t in s.txs ==> PcOk(assign, s, ch, t, s.txs[t].pc))
    && (forall t :: t in s.txs ==> (s.txs[t].state == COMMITTED <==> s.txs[t].pc.Ending? || s.txs[t].pc.Released?))
  }

  /** Strict two-phase locking: every lock belongs to a live transaction that will release it. */
  ghost predicate LocksOk(s: Sys) {
    forall f :: f in s.locks ==>
      && s.locks[f] in s.txs
      && f in s.txs[s.locks[f]].writeSet
      && !s.txs[s.locks[f]].pc.Released?
  }

  /** Versions outside all chains are the ones some transaction has inserted and not linked yet. */
  ghost predicate HeapOk(s: Sys, ch: Chains) {
    && (forall r :: r in s.heap ==> r.Proper() && s.heap[r].header.first in ch && s.heap[r].header.tMin < s.nextTx)
    && (forall r :: r in s.heap && s.heap[r].header.first == r ==> r in ch)
    && (forall r :: r in s.heap && r !in ch[s.heap[r].header.first] ==>
          exists t :: t in s.txs && s.txs[t].pc.Orphaned? && s.txs[t].pc.newer == r)
  }

  /** From position `from` on, every version's record was computed from the record just below it. */
  ghost predicate Computed(assign: Assign, heap: Heap, c: seq<RID>, from: nat)
    requires forall i :: 0 <= i < |c| ==> c[i] in heap
  {
    forall i :: from <= i && 1 <= i < |c| ==> assign(heap[c[i - 1]].record, heap[c[i]].record)
  }

  ghost predicate ChainOk(assign: Assign, s: Sys, f: RID, c: seq<RID>, from: nat) {
    && IsChain(s.heap, f, c)
    && OneActiveWriter(s.heap, Active(s), c)
    && (Tombstone(s.heap[Last(c)].header) ==> s.heap[Last(c)].header.tMax !in Active(s))
    && s.heap[Last(c)].header.tMax < s.nextTx
    // a version written by an active transaction on top of another one is covered by its lock
    && (forall i :: 1 <= i < |c| && s.heap[c[i]].header.tMin in Active(s) ==>
          f in s.locks && s.locks[f] == s.heap[c[i]].header.tMin)
    && Computed(assign, s.heap, c, from)
  }

  /** How many versions tuple `f` had when the run began. */
  ghost function Length0(ch0: Chains, f: RID): nat {
    if f in ch0 then |ch0[f]| else 0
  }

  ghost predicate ChainsOk(assign: Assign, ch0: Chains, s: Sys, ch: Chains) {
    forall f :: f in ch ==> ChainOk(assign, s, f, ch[f], Length0(ch0, f))
  }

  ghost predicate Inv(assign: Assign, ch0: Chains, s: Sys, ch: Chains) {
    TxsOk(assign, s, ch) && LocksOk(s) && HeapOk(s, ch) && ChainsOk(assign, ch0, s, ch)
  }

  // ---------------------------------------------------------------- what a step leaves alone

  /** Versions are only ever added, and a header changes only from "last" to "superseded". */
  ghost predicate HeapGrows(s: Sys, s': Sys) {
    forall r :: r in s.heap ==>
      && r in s'.heap && s'.heap[r].record == s.heap[r].record
      && (s'.heap[r].header == s.heap[r].header
          || (s.heap[r].header == s'.heap[r].header.(tMax := 0, next := r) && s'.heap[r].header.tMax != 0))
  }

  /** No writer that was finished becomes active again. */
  ghost predicate ActiveShrinks(s: Sys, s': Sys) {
    forall x :: x in Active(s') && x < s.nextTx ==> x in Active(s)
  }

  ghost predicate ChainsGrow(ch: Chains, ch': Chains) {
    forall f :: f in ch ==> f in ch' && ch[f] <= ch'[f]
  }

  /** Nothing happens to the tuples locked by `u`. */
  ghost predicate LockedAlone(s: Sys, ch: Chains, s': Sys, ch': Chains, u: TxID) {
    forall f :: f in s.locks && s.locks[f] == u && f in ch ==>
      && f in s'.locks && s'.locks[f] == u
      && f in ch' && ch'[f] == ch[f]
      && (forall r :: r in s.heap && s.heap[r].header.first == f ==> r in s'.heap && s'.heap[r] == s.heap[r])
  }
}
