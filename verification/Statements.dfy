/** An UPDATE statement among other transactions: what holds in every run, whatever the others do. */
module Statements {
  import opened Model
  import opened Bags
  import opened Versions
  import opened Pages
  import opened Machine
  import opened MachineProofs
  import opened Isolation

  // ---------------------------------------------------------------- visits and writes

  /** The tuples at which the scan of an UPDATE of `t` stops, in the order of the run. */
  function Visits(es: seq<Event>, t: TxID): seq<RID> {
    if es == [] then []
    else (if es[0].BeginRead? && es[0].tx == t && es[0].update then [es[0].first] else []) + Visits(es[1..], t)
  }

  /** The tuple, if any, into whose chain event `e` links a new version of `t`. */
  function WrittenAt(s: Sys, e: Event, t: TxID): seq<RID> {
    if e.Link? && e.tx == t && t in s.txs && s.txs[t].pc.Orphaned? then [s.txs[t].pc.first] else []
  }

  /** The tuples to which `t` adds a version. */
  function Writes(assign: Assign, s: Sys, es: seq<Event>, t: TxID): seq<RID>
    requires Run(assign, s, es).Some?
    decreases |es|
  {
    if es == [] then [] else WrittenAt(s, es[0], t) + Writes(assign, Next(assign, s, es[0]).value, es[1..], t)
  }

  /** The scan's cursor never goes back. */
  ghost predicate Ascending(fs: seq<RID>) {
    forall i, j :: 0 <= i < j < |fs| ==> Before(fs[i], fs[j])
  }

  /** The tuple an UPDATE is at, between its scan and the link of the new version. */
  function Target(pc: Pc): Option<RID> {
    match pc
    case At(f, _, ph) => if ph.Query? then None else Some(f)
    case Fetched(f, _, _, ph) => if ph.Query? then None else Some(f)
    case Matched(f) => Some(f)
    case Chosen(f, _) => Some(f)
    case Finding(f, _, _, _) => Some(f)
    case Located(f, _, _, _) => Some(f)
    case Orphaned(f, _, _, _) => Some(f)
    case _ => None
  }

  /** Every write was at a tuple visited before the current one, in the order of the visits. */
  ghost predicate InStep(s: Sys, t: TxID, visits: seq<RID>, writes: seq<RID>) {
    && Ascending(writes) && (forall i :: 0 <= i < |writes| ==> writes[i] in visits)
    && (t in s.txs && Target(s.txs[t].pc).Some? ==>
          && visits != [] && visits[|visits| - 1] == Target(s.txs[t].pc).value
          && forall i :: 0 <= i < |writes| ==> Before(writes[i], visits[|visits| - 1]))
  }

  /** A step of another transaction does not move `t`. */
  lemma OthersMove(assign: Assign, s: Sys, e: Event, t: TxID)
    requires Next(assign, s, e).Some? && t in Next(assign, s, e).value.txs && (e.Start? || e.tx != t)
    ensures t in s.txs ==> Next(assign, s, e).value.txs[t].pc == s.txs[t].pc || (e.Start? && s.nextTx == t)
    ensures t !in s.txs ==> Next(assign, s, e).value.txs[t].pc.Idle?
  {
  }

  /** A step of `t` keeps its target, takes the tuple it visits, or is done with it. */
  lemma OwnMove(assign: Assign, s: Sys, e: Event, t: TxID)
    requires Next(assign, s, e).Some? && t in Next(assign, s, e).value.txs && !e.Start? && e.tx == t
    ensures t in s.txs
    ensures var target, target' := Target(s.txs[t].pc), Target(Next(assign, s, e).value.txs[t].pc);
      if e.BeginRead? && e.update then target' == Some(e.first)
      else target' == None || (target' == target && !e.Link?)
  {
  }

  lemma {:induction false} StepKeepsOrder(assign: Assign, s: Sys, e: Event, t: TxID, visits: seq<RID>, writes: seq<RID>)
    requires InStep(s, t, visits, writes) && Next(assign, s, e).Some? && t < s.nextTx
    requires Ascending(visits + Visits([e], t))
    ensures InStep(Next(assign, s, e).value, t, visits + Visits([e], t), writes + WrittenAt(s, e, t))
  {
    var s', visits', writes' := Next(assign, s, e).value, visits + Visits([e], t), writes + WrittenAt(s, e, t);
    VisitsOne(e, t);
    if t in s'.txs {
      if e.Start? || e.tx != t { OthersMove(assign, s, e, t); } else { OwnMove(assign, s, e, t); }
    }
    hide Next, Visits;
    assert forall x :: x in visits ==> x in visits';
    if WrittenAt(s, e, t) != [] {
      assert Target(s.txs[t].pc) == Some(s.txs[t].pc.first) && visits[|visits| - 1] == s.txs[t].pc.first;
      assert writes' == writes + [visits[|visits| - 1]];
    }
    if Visits([e], t) != [] {
      forall i | 0 <= i < |writes'| ensures Before(writes'[i], visits'[|visits'| - 1]) {
        var k :| 0 <= k < |visits| && visits[k] == writes'[i];
        assert visits'[k] == writes'[i];
      }
    }
  }

  // ---------------------------------------------------------------- the cursor

  /** On the pages counted at the beginning, in slots of a directory. */
  ghost predicate Within(fs: seq<RID>, total: nat) {
    forall i :: 0 <= i < |fs| ==> 0 <= fs[i].pageNum < total && 0 <= fs[i].dirSlot < MAX_SLOTS
  }

  /** The scan of `t` is not opened again. */
  ghost predicate SameScan(es: seq<Event>, t: TxID) {
    forall i :: 0 <= i < |es| ==> !(es[i].OpenScan? && es[i].tx == t)
  }

  /**
   * The visits lie behind the cursor, in its order and on its pages, and no tuple of `old` behind the cursor is
   * missing.
   */
  ghost predicate Behind(s: Sys, t: TxID, pages: nat, known: set<RID>, visits: seq<RID>) {
    && Ascending(visits) && Within(visits, pages)
    && (t in s.txs ==>
          && s.txs[t].cursor.Some? && s.txs[t].cursor.value.pages == pages
          && (forall i :: 0 <= i < |visits| ==> Before(visits[i], s.txs[t].cursor.value.Place()))
          && (forall f :: f in known && Before(f, s.txs[t].cursor.value.Place()) ==> f in visits))
  }

  /** Tuples that were there when the scan was opened. */
  ghost predicate Known(s: Sys, known: set<RID>) {
    forall f :: f in known ==> f.Proper() && IsFirst(s, f)
  }

  lemma StepBehind(assign: Assign, s: Sys, e: Event, t: TxID, pages: nat, known: set<RID>, visits: seq<RID>)
    requires Behind(s, t, pages, known, visits) && Known(s, known) && Next(assign, s, e).Some? && t < s.nextTx
    requires !(e.OpenScan? && e.tx == t)
    ensures Behind(Next(assign, s, e).value, t, pages, known, visits + Visits([e], t))
  {
    var s' := Next(assign, s, e).value;
    VisitsOne(e, t);
    if e.Start? || e.tx != t || t !in s'.txs {
      assert t in s'.txs ==> t in s.txs && s'.txs[t].cursor == s.txs[t].cursor;
      assert Visits([e], t) == [] ==> visits + Visits([e], t) == visits;
      if t !in s'.txs { GoneQuietly(assign, s, e, t); }
    } else if e.PassSlot? || e.PassPage? || (e.BeginRead? && e.update) {
      CursorMoves(assign, s, e, t, pages, known, visits);
    } else {
      assert s'.txs[t].cursor == s.txs[t].cursor;
      assert visits + Visits([e], t) == visits;
    }
  }

  lemma GoneQuietly(assign: Assign, s: Sys, e: Event, t: TxID)
    requires Next(assign, s, e).Some? && t !in Next(assign, s, e).value.txs
    ensures Visits([e], t) == []
  {
    VisitsOne(e, t);
  }

  lemma CursorMoves(assign: Assign, s: Sys, e: Event, t: TxID, pages: nat, known: set<RID>, visits: seq<RID>)
    requires Behind(s, t, pages, known, visits) && Known(s, known) && Next(assign, s, e).Some?
    requires (e.PassSlot? || e.PassPage? || (e.BeginRead? && e.update)) && e.tx == t
    ensures Behind(Next(assign, s, e).value, t, pages, known, visits + Visits([e], t))
  {
    var s' := Next(assign, s, e).value;
    var c, c' := s.txs[t].cursor.value, s'.txs[t].cursor.value;
    var visits' := visits + Visits([e], t);
    VisitsOne(e, t);
    hide Visits;
    assert Before(c.Place(), c'.Place());
    forall f | f in known && Before(f, c'.Place()) ensures f in visits' {
      assert f in visits || f == c.Place() || (f.pageNum == c.page && f.dirSlot >= c.slot);
    }
  }

  lemma VisitsSplit(es: seq<Event>, t: TxID)
    requires es != []
    ensures Visits(es, t) == Visits([es[0]], t) + Visits(es[1..], t)
  {
    VisitsOne(es[0], t);
  }

  lemma VisitsOne(e: Event, t: TxID)
    ensures Visits([e], t) == if e.BeginRead? && e.tx == t && e.update then [e.first] else []
  {
    var none: seq<Event> := [];
    assert [e][1..] == none;
  }

  /** Over a run of the statement: writes follow visits, visits follow the cursor, and the cursor skips no tuple. */
  lemma {:induction false} RunInOrder(assign: Assign, ch0: Chains, s: Sys, ch: Chains, es: seq<Event>, t: TxID,
                                      pages: nat, known: set<RID>, visits: seq<RID>, writes: seq<RID>)
    requires Inv(assign, ch0, s, ch) && s.nextTx > 0 && Run(assign, s, es).Some? && t < s.nextTx && SameScan(es, t)
    requires InStep(s, t, visits, writes) && Behind(s, t, pages, known, visits) && Known(s, known)
    ensures Ascending(writes + Writes(assign, s, es, t))
    ensures Behind(Run(assign, s, es).value, t, pages, known, visits + Visits(es, t))
    decreases |es|
  {
    if es == [] {
      assert writes + [] == writes && visits + [] == visits;
    } else {
      var s', ch' := Next(assign, s, es[0]).value, NextChains(s, ch, es[0]);
      var visits', writes' := visits + Visits([es[0]], t), writes + WrittenAt(s, es[0], t);
      assert !(es[0].OpenScan? && es[0].tx == t) && SameScan(es[1..], t);
      VisitsSplit(es, t);
      NextTxGrows(assign, s, es[0]);
      hide InStep, Next, NextChains, Ascending, WrittenAt, Visits, Inv, Behind, Known, SameScan;
      Associate(visits, Visits([es[0]], t), Visits(es[1..], t));
      Associate(writes, WrittenAt(s, es[0], t), Writes(assign, s', es[1..], t));
      StepBehind(assign, s, es[0], t, pages, known, visits);
      BehindAscends(s', t, pages, known, visits');
      StepKeepsOrder(assign, s, es[0], t, visits, writes);
      StillKnown(assign, ch0, s, ch, es[0], known);
      StepInv(assign, ch0, s, ch, es[0]);
      RunInOrder(assign, ch0, s', ch', es[1..], t, pages, known, visits', writes');
    }
  }

  lemma BehindAscends(s: Sys, t: TxID, pages: nat, known: set<RID>, visits: seq<RID>)
    requires Behind(s, t, pages, known, visits)
    ensures Ascending(visits) && Within(visits, pages)
  {
  }

  lemma StillKnown(assign: Assign, ch0: Chains, s: Sys, ch: Chains, e: Event, known: set<RID>)
    requires Inv(assign, ch0, s, ch) && Next(assign, s, e).Some? && Known(s, known)
    ensures Known(Next(assign, s, e).value, known)
  {
    StepExtends(assign, ch0, s, ch, e);
    hide Inv, Next, NextChains;
  }

  lemma NextTxGrows(assign: Assign, s: Sys, e: Event)
    requires Next(assign, s, e).Some?
    ensures s.nextTx <= Next(assign, s, e).value.nextTx
  {
  }

  // ---------------------------------------------------------------- versions written

  /** The versions of a chain that `t` wrote. */
  function Written(heap: Heap, c: seq<RID>, t: TxID): nat {
    if c == [] then 0
    else Written(heap, c[..|c| - 1], t) + if Last(c) in heap && heap[Last(c)].header.tMin == t then 1 else 0
  }

  lemma {:induction false} WrittenStays(heap: Heap, heap': Heap, c: seq<RID>, t: TxID)
    requires forall i :: 0 <= i < |c| ==>
      c[i] in heap && c[i] in heap' && heap'[c[i]].header.tMin == heap[c[i]].header.tMin
    ensures Written(heap', c, t) == Written(heap, c, t)
  {
    if c != [] { WrittenStays(heap, heap', c[..|c| - 1], t); }
  }

  function Times(fs: seq<RID>, f: RID): nat {
    if fs == [] then 0 else (if fs[0] == f then 1 else 0) + Times(fs[1..], f)
  }

  /** The chain of `f` after a step: as before, or one version longer by the link of some transaction. */
  lemma ChainAfter(assign: Assign, ch0: Chains, s: Sys, ch: Chains, e: Event, f: RID)
    requires Inv(assign, ch0, s, ch) && Next(assign, s, e).Some? && f in ch
    ensures var s', ch' := Next(assign, s, e).value, NextChains(s, ch, e);
      && f in ch'
      && (if !e.Start? && WrittenAt(s, e, e.tx) == [f] then
            exists r :: r in s'.heap && s'.heap[r].header.tMin == e.tx && ch'[f] == ch[f] + [r]
          else ch'[f] == ch[f])
  {
    hide Inv, Next;
    StepExtends(assign, ch0, s, ch, e);
    if e.Link? && e.tx in s.txs && s.txs[e.tx].pc.Orphaned? {
      RelinkFacts(assign, ch0, s, ch, e.tx);
      NewerStays(s, Next(assign, s, e).value, s.txs[e.tx].pc.newer);
    } else if e.InsertPage? {
      InsertedAtIsFree(assign, s, e);
      InChain(assign, ch0, s, ch, f);
    }
  }

  lemma NewerStays(s: Sys, s': Sys, r: RID)
    requires HeapGrows(s, s') && r in s.heap
    ensures r in s'.heap && s'.heap[r].header.tMin == s.heap[r].header.tMin
  {
  }

  /** One step adds a version of `t` to the chain of `f` exactly when it is the link at `f`. */
  lemma StepWrites(assign: Assign, ch0: Chains, s: Sys, ch: Chains, e: Event, t: TxID, f: RID)
    requires Inv(assign, ch0, s, ch) && Next(assign, s, e).Some? && f in ch
    ensures var s', ch' := Next(assign, s, e).value, NextChains(s, ch, e);
      f in ch' && Written(s'.heap, ch'[f], t) == Written(s.heap, ch[f], t) + Times(WrittenAt(s, e, t), f)
  {
    hide Inv, Next, NextChains, ChainsGrow;
    var s', ch', c := Next(assign, s, e).value, NextChains(s, ch, e), ch[f];
    StepExtends(assign, ch0, s, ch, e);
    InChain(assign, ch0, s, ch, f);
    forall i | 0 <= i < |c| ensures c[i] in s'.heap && s'.heap[c[i]].header.tMin == s.heap[c[i]].header.tMin {
      NewerStays(s, s', c[i]);
    }
    hide HeapGrows;
    ChainAfter(assign, ch0, s, ch, e, f);
    WrittenStays(s.heap, s'.heap, c, t);
    WrittenByOne(s, e, t, f);
    if !e.Start? && WrittenAt(s, e, e.tx) == [f] {
      var r :| r in s'.heap && s'.heap[r].header.tMin == e.tx && ch'[f] == c + [r];
      assert (c + [r])[..|c|] == c;
    }
  }

  lemma WrittenByOne(s: Sys, e: Event, t: TxID, f: RID)
    ensures Times(WrittenAt(s, e, t), f) == if !e.Start? && e.tx == t && WrittenAt(s, e, e.tx) == [f] then 1 else 0
  {
    var none: seq<RID> := [];
    if WrittenAt(s, e, t) != [] { assert WrittenAt(s, e, t)[1..] == none; }
  }

  lemma InChain(assign: Assign, ch0: Chains, s: Sys, ch: Chains, f: RID)
    requires Inv(assign, ch0, s, ch) && f in ch
    ensures f in s.heap && forall i :: 0 <= i < |ch[f]| ==> ch[f][i] in s.heap
  {
    assert ChainOk(assign, s, f, ch[f], Length0(ch0, f));
    assert ch[f][0] == f;
  }

  /** Over a run, `t` adds to the chain of `f` one version for each of its writes there. */
  lemma {:induction false} RunWrites(assign: Assign, ch0: Chains, s: Sys, ch: Chains, es: seq<Event>, t: TxID, f: RID)
    requires Inv(assign, ch0, s, ch) && s.nextTx > 0 && Run(assign, s, es).Some? && f in ch
    ensures f in RunChains(assign, s, ch, es)
    ensures Written(Run(assign, s, es).value.heap, RunChains(assign, s, ch, es)[f], t)
         == Written(s.heap, ch[f], t) + Times(Writes(assign, s, es, t), f)
    decreases |es|
  {
    hide Inv, Next, NextChains, Written;
    if es != [] {
      var s', ch' := Next(assign, s, es[0]).value, NextChains(s, ch, es[0]);
      StepInv(assign, ch0, s, ch, es[0]);
      StepWrites(assign, ch0, s, ch, es[0], t, f);
      RunWrites(assign, ch0, s', ch', es[1..], t, f);
      TimesAppend(WrittenAt(s, es[0], t), Writes(assign, s', es[1..], t), f);
    }
  }

  lemma {:induction false} TimesAppend(a: seq<RID>, b: seq<RID>, f: RID)
    ensures Times(a + b, f) == Times(a, f) + Times(b, f)
  {
    if a == [] {
      assert a + b == b;
    } else {
      assert (a + b)[0] == a[0] && (a + b)[1..] == a[1..] + b;
      TimesAppend(a[1..], b, f);
    }
  }

  lemma {:induction false} AscendingOnce(fs: seq<RID>, f: RID)
    requires Ascending(fs)
    ensures Times(fs, f) == if f in fs then 1 else 0
  {
    if fs != [] {
      AscendingOnce(fs[1..], f);
      assert fs == [fs[0]] + fs[1..];
      assert forall i :: 1 <= i < |fs| ==> Before(fs[0], fs[i]);
    }
  }

  // ---------------------------------------------------------------- one statement in a run

  /** The steps from the opening of the scan of `t` on, up to its end or any earlier moment. */
  ghost predicate IsStatement(es: seq<Event>, t: TxID, pages: nat) {
    es != [] && es[0] == OpenScan(t, pages) && SameScan(es[1..], t)
  }

  lemma OpensInOrder(assign: Assign, ch0: Chains, s: Sys, ch: Chains, es: seq<Event>, t: TxID, pages: nat)
    requires Inv(assign, ch0, s, ch) && s.nextTx > 0 && Run(assign, s, es).Some? && IsStatement(es, t, pages)
    ensures Ascending(Writes(assign, s, es, t))
    ensures Behind(Run(assign, s, es).value, t, pages, ch.Keys, Visits(es, t))
  {
    hide *;
    StatementOpens(assign, s, es, t, pages);
    var s', known := Next(assign, s, es[0]).value, ch.Keys;
    Opened(assign, ch0, s, ch, t, pages);
    StepInv(assign, ch0, s, ch, es[0]);
    VisitsSplit(es, t);
    OpeningWritesNothing(assign, s, es, t, pages);
    ChainsAtOpening(s, ch, t, pages);
    RunInOrder(assign, ch0, s', NextChains(s, ch, es[0]), es[1..], t, pages, known, [], []);
    assert [] + Visits(es[1..], t) == Visits(es[1..], t);
    assert [] + Writes(assign, s', es[1..], t) == Writes(assign, s', es[1..], t);
  }

  lemma StatementOpens(assign: Assign, s: Sys, es: seq<Event>, t: TxID, pages: nat)
    requires Run(assign, s, es).Some? && IsStatement(es, t, pages)
    ensures es != [] && es[0] == OpenScan(t, pages) && SameScan(es[1..], t)
    ensures t in s.txs && ScanOpened(s, t, pages).Some?
    ensures Next(assign, s, es[0]) == ScanOpened(s, t, pages)
  {
  }

  /** Before the first slot nothing was visited. */
  lemma Opened(assign: Assign, ch0: Chains, s: Sys, ch: Chains, t: TxID, pages: nat)
    requires Inv(assign, ch0, s, ch) && t in s.txs && ScanOpened(s, t, pages).Some?
    ensures var s' := ScanOpened(s, t, pages).value;
      t < s'.nextTx && InStep(s', t, [], []) && Behind(s', t, pages, ch.Keys, []) && Known(s', ch.Keys)
  {
    hide *;
    Focus(assign, ch0, s, ch, t, RID(0, 0));
    AllFirst(assign, ch0, s, ch);
    NothingVisited(s, t, pages, ch.Keys);
  }

  lemma NothingVisited(s: Sys, t: TxID, pages: nat, known: set<RID>)
    requires t in s.txs && ScanOpened(s, t, pages).Some? && t < s.nextTx
    requires forall f :: f in known ==> f.Proper() && IsFirst(s, f)
    ensures var s' := ScanOpened(s, t, pages).value;
      t < s'.nextTx && InStep(s', t, [], []) && Behind(s', t, pages, known, []) && Known(s', known)
  {
    hide IsFirst;
    assert ScanOpened(s, t, pages).value.heap == s.heap;
    forall f ensures IsFirst(ScanOpened(s, t, pages).value, f) == IsFirst(s, f) {
      SameFirst(s, ScanOpened(s, t, pages).value, f);
    }
  }

  lemma SameFirst(s: Sys, s': Sys, f: RID)
    requires s'.heap == s.heap
    ensures IsFirst(s', f) == IsFirst(s, f)
  {
  }

  lemma ChainsAtOpening(s: Sys, ch: Chains, t: TxID, pages: nat)
    ensures NextChains(s, ch, OpenScan(t, pages)) == ch
  {
  }

  lemma OpeningWritesNothing(assign: Assign, s: Sys, es: seq<Event>, t: TxID, pages: nat)
    requires Run(assign, s, es).Some? && IsStatement(es, t, pages)
    ensures Run(assign, s, es) == Run(assign, Next(assign, s, es[0]).value, es[1..])
    ensures Writes(assign, s, es, t) == Writes(assign, Next(assign, s, es[0]).value, es[1..], t)
    ensures Visits([es[0]], t) == []
  {
    VisitsOne(es[0], t);
  }

  lemma AllFirst(assign: Assign, ch0: Chains, s: Sys, ch: Chains)
    requires Inv(assign, ch0, s, ch)
    ensures forall f :: f in ch ==> f.Proper() && IsFirst(s, f)
  {
    forall f | f in ch ensures f.Proper() && IsFirst(s, f) {
      assert ChainOk(assign, s, f, ch[f], Length0(ch0, f));
      assert ch[f][0] == f;
    }
  }

  /**
   * Whatever other transactions do between the steps of the statement, an UPDATE of `t` adds at most one version
   * to each tuple, and it adds one exactly where it wrote.
   */
  lemma AtMostOnce(assign: Assign, s0: Sys, ch0: Chains, before: seq<Event>, es: seq<Event>, t: TxID, pages: nat,
                   f: RID)
    requires AtRest(s0, ch0) && Run(assign, s0, before).Some? && Run(assign, Run(assign, s0, before).value, es).Some?
    requires IsStatement(es, t, pages) && f in RunChains(assign, s0, ch0, before)
    ensures var s, ch := Run(assign, s0, before).value, RunChains(assign, s0, ch0, before);
      var s', ch' := Run(assign, s, es).value, RunChains(assign, s, ch, es);
      && f in ch'
      && Written(s'.heap, ch'[f], t) == Written(s.heap, ch[f], t) + if f in Writes(assign, s, es, t) then 1 else 0
  {
    hide *;
    var s, ch := Run(assign, s0, before).value, RunChains(assign, s0, ch0, before);
    AtRestIsInv(assign, s0, ch0);
    RunInv(assign, ch0, s0, ch0, before);
    OpensInOrder(assign, ch0, s, ch, es, t, pages);
    RunWrites(assign, ch0, s, ch, es, t, f);
    AscendingOnce(Writes(assign, s, es, t), f);
  }

  /**
   * However the heap grows meanwhile, the scan of the statement stops in RID order, at no more tuples than the
   * pages counted at its beginning have slots, and at every tuple that was there at its beginning once the cursor
   * is past it.
   */
  lemma ScanOfStatement(assign: Assign, s0: Sys, ch0: Chains, before: seq<Event>, es: seq<Event>, t: TxID, pages: nat)
    requires AtRest(s0, ch0) && Run(assign, s0, before).Some? && Run(assign, Run(assign, s0, before).value, es).Some?
    requires IsStatement(es, t, pages)
    ensures Ascending(Visits(es, t)) && |Visits(es, t)| <= pages * MAX_SLOTS
    ensures var s' := Run(assign, Run(assign, s0, before).value, es).value;
      t in s'.txs ==>
        && s'.txs[t].cursor.Some?
        && forall f :: f in RunChains(assign, s0, ch0, before) && Before(f, s'.txs[t].cursor.value.Place()) ==>
             f in Visits(es, t)
  {
    hide *;
    var s, ch := Run(assign, s0, before).value, RunChains(assign, s0, ch0, before);
    AtRestIsInv(assign, s0, ch0);
    RunInv(assign, ch0, s0, ch0, before);
    OpensInOrder(assign, ch0, s, ch, es, t, pages);
    BehindFacts(Run(assign, s, es).value, t, pages, ch.Keys, Visits(es, t));
    AscendingBounded(Visits(es, t), pages);
  }

  lemma BehindFacts(s: Sys, t: TxID, pages: nat, known: set<RID>, visits: seq<RID>)
    requires Behind(s, t, pages, known, visits)
    ensures Ascending(visits) && Within(visits, pages)
    ensures t in s.txs ==>
      && s.txs[t].cursor.Some?
      && forall f :: f in known && Before(f, s.txs[t].cursor.value.Place()) ==> f in visits
  {
  }

  function Number(r: RID): int {
    r.pageNum * MAX_SLOTS + r.dirSlot
  }

  lemma BeforeNumber(a: RID, b: RID)
    requires Before(a, b) && 0 <= a.dirSlot < MAX_SLOTS && 0 <= b.dirSlot < MAX_SLOTS
    ensures Number(a) < Number(b)
  {
  }

  lemma NumberBelow(r: RID, total: nat)
    requires 0 <= r.pageNum < total && 0 <= r.dirSlot < MAX_SLOTS
    ensures 0 <= Number(r) < total * MAX_SLOTS
  {
    assert (total - 1 - r.pageNum) * MAX_SLOTS >= 0;
  }

  lemma {:induction false} AscendingBounded(fs: seq<RID>, total: nat)
    requires Ascending(fs) && Within(fs, total)
    ensures |fs| <= total * MAX_SLOTS && (fs != [] ==> |fs| <= Number(fs[|fs| - 1]) + 1)
  {
    if fs != [] {
      var n := |fs| - 1;
      AscendingBounded(fs[..n], total);
      if n > 0 { BeforeNumber(fs[n - 1], fs[n]); }
      NumberBelow(fs[n], total);
    }
  }
}
