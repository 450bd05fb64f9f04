/**
 * What one look at a version means when other transactions run between the fetch of its header and the
 * look-up of its writers' states. A read takes its answer from a header fetched in one state and from
 * transaction states seen in a later one; the lemmas say when some state in between justifies the answer.
 */
module Reads {
  import opened Model
  import opened Versions
  import opened Machine
  import opened MachineProofs
  import opened Isolation

  ghost predicate Others(es: seq<Event>, t: TxID) {
    forall i :: 0 <= i < |es| ==> es[i].Start? || es[i].tx != t
  }

  ghost predicate VisibleNow(s: Sys, t: TxID, r: RID) {
    r in s.heap && IsVisible(s.heap[r].header, t, Active(s))
  }

  /** `t` must read version `r` in some state of the run. */
  ghost predicate VisibleSometime(assign: Assign, s: Sys, t: TxID, r: RID, es: seq<Event>)
    decreases |es|
  {
    VisibleNow(s, t, r)
    || (es != [] && Next(assign, s, es[0]).Some?
        && VisibleSometime(assign, Next(assign, s, es[0]).value, t, r, es[1..]))
  }

  ghost predicate AbsentNow(s: Sys, ch: Chains, t: TxID, f: RID) {
    && f in ch && (forall i :: 0 <= i < |ch[f]| ==> ch[f][i] in s.heap)
    && Current(s.heap, ch[f], t, Active(s)) == None
  }

  /** Tuple `f` does not exist for `t` in some state of the run. */
  ghost predicate AbsentSometime(assign: Assign, s: Sys, ch: Chains, t: TxID, f: RID, es: seq<Event>)
    decreases |es|
  {
    AbsentNow(s, ch, t, f)
    || (es != [] && Next(assign, s, es[0]).Some?
        && AbsentSometime(assign, Next(assign, s, es[0]).value, NextChains(s, ch, es[0]), t, f, es[1..]))
  }

  // ---------------------------------------------------------------- one step

  /** `t_min` never changes, `t_max` is written once, and only by a transaction that is still active. */
  ghost predicate StampsKept(s: Sys, s': Sys, r: RID) {
    r in s.heap && r in s'.heap
    && (var h, h' := s.heap[r].header, s'.heap[r].header;
      && h'.tMin == h.tMin
      && (h' == h || (h.tMax == 0 && h'.tMax in Active(s) && h'.tMax != 0)))
  }

  lemma StepStamps(assign: Assign, ch0: Chains, s: Sys, ch: Chains, e: Event, t: TxID, r: RID)
    requires Inv(assign, ch0, s, ch) && Next(assign, s, e).Some? && r in s.heap
    requires t in Active(s) && (e.Start? || e.tx != t)
    ensures var s' := Next(assign, s, e).value;
      && StampsKept(s, s', r) && ActiveShrinks(s, s') && t in Active(s') && s.nextTx <= s'.nextTx
      && (Active(s') != Active(s) && !e.Start? ==> s'.heap == s.heap)
  {
    hide PcOk, Inv;
    if !e.Start? && e.tx in s.txs { Focus(assign, ch0, s, ch, e.tx, DELETED); }
    StepHeap(assign, s, e);
    if e.Link? { RelinkFacts(assign, ch0, s, ch, e.tx); }
    StepActive(assign, s, e);
  }

  lemma StepActive(assign: Assign, s: Sys, e: Event)
    requires Next(assign, s, e).Some?
    ensures var s' := Next(assign, s, e).value;
      Active(s') ==
        (if e.Start? then Active(s) + {s.nextTx} else if e.End? || e.Erase? then Active(s) - {e.tx} else Active(s))
  {
  }

  /** What `t` may rely on while others run. */
  ghost predicate Watching(assign: Assign, ch0: Chains, s: Sys, ch: Chains, t: TxID, r: RID, es: seq<Event>) {
    && Inv(assign, ch0, s, ch) && s.nextTx > 0 && Run(assign, s, es).Some?
    && Others(es, t) && t in Active(s) && r in s.heap && s.heap[r].header.tMin < s.nextTx
  }

  lemma WatchStep(assign: Assign, ch0: Chains, s: Sys, ch: Chains, t: TxID, r: RID, es: seq<Event>)
    requires Watching(assign, ch0, s, ch, t, r, es) && es != []
    ensures Next(assign, s, es[0]).Some?
    ensures var s' := Next(assign, s, es[0]).value;
      && Watching(assign, ch0, s', NextChains(s, ch, es[0]), t, r, es[1..])
      && Run(assign, s', es[1..]) == Run(assign, s, es)
      && StampsKept(s, s', r) && ActiveShrinks(s, s') && s.nextTx <= s'.nextTx
      && (Active(s') != Active(s) && !es[0].Start? ==> s'.heap == s.heap)
      && (es[0].Start? ==> Active(s) <= Active(s'))
  {
    hide Inv, Next, NextChains;
    StepInv(assign, ch0, s, ch, es[0]);
    StepStamps(assign, ch0, s, ch, es[0], t, r);
    StepActive(assign, s, es[0]);
  }

  /** Over a whole run: stamps are write-once and finished transactions stay finished. */
  lemma {:induction false} RunStamps(assign: Assign, ch0: Chains, s: Sys, ch: Chains, t: TxID, r: RID, es: seq<Event>)
    requires Watching(assign, ch0, s, ch, t, r, es)
    ensures var s2 := Run(assign, s, es).value;
      && r in s2.heap && t in Active(s2) && s2.heap[r].header.tMin == s.heap[r].header.tMin
      && (s.heap[r].header.tMax != 0 ==> s2.heap[r].header == s.heap[r].header)
      && (forall x :: x < s.nextTx && x !in Active(s) && s2.heap[r].header.tMax == x ==> s.heap[r].header.tMax == x)
      && ActiveShrinks(s, s2)
    decreases |es|
  {
    hide Inv, Next, NextChains;
    if es != [] {
      WatchStep(assign, ch0, s, ch, t, r, es);
      RunStamps(assign, ch0, Next(assign, s, es[0]).value, NextChains(s, ch, es[0]), t, r, es[1..]);
    }
  }

  /** A version superseded by its own writer was never there for anybody else. */
  lemma {:induction false} IntermediateNeverVisible(assign: Assign, ch0: Chains, s: Sys, ch: Chains, t: TxID, r: RID,
                                                    es: seq<Event>)
    requires Watching(assign, ch0, s, ch, t, r, es)
    requires s.heap[r].header.tMin != t && r in Run(assign, s, es).value.heap
    requires Run(assign, s, es).value.heap[r].header.tMax == s.heap[r].header.tMin != 0
    ensures !VisibleSometime(assign, s, t, r, es)
    decreases |es|
  {
    hide Inv, Next, NextChains;
    RunStamps(assign, ch0, s, ch, t, r, es);
    if es != [] {
      WatchStep(assign, ch0, s, ch, t, r, es);
      IntermediateNeverVisible(assign, ch0, Next(assign, s, es[0]).value, NextChains(s, ch, es[0]), t, r, es[1..]);
    }
  }

  /** While its writer is active, a version can be superseded by that writer only. */
  lemma OwnSuccessor(assign: Assign, ch0: Chains, s: Sys, ch: Chains, f: RID, r: RID)
    requires Inv(assign, ch0, s, ch) && f in ch && r in ch[f] && r in s.heap
    requires s.heap[r].header.tMin in Active(s)
    ensures s.heap[r].header.tMax == 0 || s.heap[r].header.tMax == s.heap[r].header.tMin
  {
    hide PcOk, LocksOk;
    assert ChainOk(assign, s, f, ch[f], Length0(ch0, f));
    hide Inv, ChainOk;
    var i := PlaceInChain(s.heap, f, ch[f], r);
  }

  /** When the writer of a last version finishes without superseding it, the version becomes visible. */
  lemma {:induction false} VisibleAfterEnd(assign: Assign, ch0: Chains, s: Sys, ch: Chains, t: TxID, f: RID, r: RID,
                                           es: seq<Event>)
    requires Watching(assign, ch0, s, ch, t, r, es) && f in ch && r in ch[f]
    requires s.heap[r].header.tMin in Active(s) && s.heap[r].header.tMin !in Active(Run(assign, s, es).value)
    requires r in Run(assign, s, es).value.heap
    requires var x := Run(assign, s, es).value.heap[r].header.tMax; x == 0 || x != s.heap[r].header.tMin
    ensures VisibleSometime(assign, s, t, r, es)
    decreases |es|
  {
    hide Inv, Next, NextChains;
    if es != [] {
      var s', ch' := Next(assign, s, es[0]).value, NextChains(s, ch, es[0]);
      WatchStep(assign, ch0, s, ch, t, r, es);
      StepExtends(assign, ch0, s, ch, es[0]);
      assert r in ch'[f];
      if s.heap[r].header.tMin in Active(s') {
        VisibleAfterEnd(assign, ch0, s', ch', t, f, r, es[1..]);
      } else {
        OwnSuccessor(assign, ch0, s, ch, f, r);
        RunStamps(assign, ch0, s, ch, t, r, es);
        assert VisibleNow(s', t, r);
      }
    }
  }

  lemma {:induction false} VisibleAtEnd(assign: Assign, s: Sys, t: TxID, r: RID, es: seq<Event>)
    requires Run(assign, s, es).Some? && VisibleNow(Run(assign, s, es).value, t, r)
    ensures VisibleSometime(assign, s, t, r, es)
    decreases |es|
  {
    hide Next, VisibleNow;
    if es != [] { VisibleAtEnd(assign, Next(assign, s, es[0]).value, t, r, es[1..]); }
  }

  // ---------------------------------------------------------------- the two answers

  /**
   * `t` fetched the header of `cur` in state `s`; others ran; now the look-up of the states makes it return
   * that version. The answer is right for some state in between exactly when the version was not superseded
   * by its own writer, some other transaction, before that writer finished.
   */
  lemma FoundIsTimely(assign: Assign, ch0: Chains, s: Sys, ch: Chains, t: TxID, f: RID, cur: RID, es: seq<Event>)
    requires Watching(assign, ch0, s, ch, t, cur, es) && f in ch && cur in ch[f]
    requires Decide(s.heap[cur].header, t, Active(Run(assign, s, es).value)).Found?
    ensures var s2 := Run(assign, s, es).value;
      && cur in s2.heap
      && (VisibleSometime(assign, s, t, cur, es) <==>
          !(s.heap[cur].header.tMin != t && s2.heap[cur].header.tMax == s.heap[cur].header.tMin != 0))
  {
    hide Inv, Next, NextChains;
    var s2, h := Run(assign, s, es).value, s.heap[cur].header;
    RunStamps(assign, ch0, s, ch, t, cur, es);
    if h.tMin != t && s2.heap[cur].header.tMax == h.tMin != 0 {
      IntermediateNeverVisible(assign, ch0, s, ch, t, cur, es);
    } else if h.tMax != 0 {
      VisibleAtEnd(assign, s, t, cur, es);
    } else if h.tMin in Active(s) && h.tMin != t {
      VisibleAfterEnd(assign, ch0, s, ch, t, f, cur, es);
    }
  }

  /** A tuple created by another active transaction has no version `t` may see. */
  lemma AbsentWhileCreated(assign: Assign, s: Sys, ch: Chains, t: TxID, f: RID, from: nat)
    requires f in ch && ChainOk(assign, s, f, ch[f], from)
    requires !Trusted(s.heap[ch[f][0]].header.tMin, t, Active(s))
    ensures AbsentNow(s, ch, t, f)
  {
    TrustedLengthIsNewest(s.heap, ch[f], t, Active(s));
  }

  lemma AbsentOnceDeleted(assign: Assign, s: Sys, ch: Chains, t: TxID, f: RID, r: RID, from: nat)
    requires f in ch && ChainOk(assign, s, f, ch[f], from) && r in ch[f] && Tombstone(s.heap[r].header)
    ensures AbsentNow(s, ch, t, f)
  {
    var i := PlaceInChain(s.heap, f, ch[f], r);
    TrustedLengthIsNewest(s.heap, ch[f], t, Active(s));
  }

  lemma {:induction false} AbsentAtEnd(assign: Assign, s: Sys, ch: Chains, t: TxID, f: RID, es: seq<Event>)
    requires Run(assign, s, es).Some? && AbsentNow(Run(assign, s, es).value, RunChains(assign, s, ch, es), t, f)
    ensures AbsentSometime(assign, s, ch, t, f, es)
    decreases |es|
  {
    hide Next, NextChains, AbsentNow;
    if es != [] { AbsentAtEnd(assign, Next(assign, s, es[0]).value, NextChains(s, ch, es[0]), t, f, es[1..]); }
  }

  /** A read that gives up is always right: in some state in between the tuple did not exist for `t`. */
  lemma NothingIsTimely(assign: Assign, ch0: Chains, s: Sys, ch: Chains, t: TxID, f: RID, cur: RID, ph: Phase,
                        es: seq<Event>)
    requires Watching(assign, ch0, s, ch, t, cur, es)
    requires s.txs[t].pc == Fetched(f, cur, s.heap[cur].header, ph)
    requires Decide(s.heap[cur].header, t, Active(Run(assign, s, es).value)).Nothing?
    ensures AbsentSometime(assign, s, ch, t, f, es)
  {
    hide Inv, Next, NextChains, ChainOk, AbsentNow;
    var s2, ch2, h := Run(assign, s, es).value, RunChains(assign, s, ch, es), s.heap[cur].header;
    Focus(assign, ch0, s, ch, t, f);
    RunStamps(assign, ch0, s, ch, t, cur, es);
    if h.tMax == 0 {
      FirstOfChain(assign, s, ch, f, Length0(ch0, f));
      AbsentWhileCreated(assign, s, ch, t, f, Length0(ch0, f));
    } else {
      RunInv(assign, ch0, s, ch, es);
      RunExtends(assign, ch0, s, ch, es);
      Focus(assign, ch0, s2, ch2, t, f);
      AbsentOnceDeleted(assign, s2, ch2, t, f, cur, Length0(ch0, f));
      AbsentAtEnd(assign, s, ch, t, f, es);
    }
  }

  lemma FirstOfChain(assign: Assign, s: Sys, ch: Chains, f: RID, from: nat)
    requires f in ch && ChainOk(assign, s, f, ch[f], from)
    ensures ch[f] != [] && ch[f][0] == f
  {
  }

  // ---------------------------------------------------------------- the answer that is never right

  /** A database with one empty heap file. */
  const FRESH := Sys(map[], map[], map[], 1)

  const R0 := RID(0, 0)

  const R1 := RID(0, 1)

  /**
   * Transaction 1 inserts a tuple and begins to update it, and transaction 2, scanning, fetches the header of
   * its only version.
   */
  function Overtaken(): seq<Event> {
    [Start, Start, InsertPage(1, R0, [Int(10)]), NoteInsert(1), OpenScan(1, 1), BeginRead(1, R0, true),
     BeginRead(2, R0, false), Fetch(2)]
  }

  /** Transaction 1 updates the tuple and commits. */
  function Overtaking(): seq<Event> {
    [Fetch(1), Check(1), Lock(1), Fetch(1), Check(1), Compute(1, [Int(20)]),
     FollowNext(1), InsertVersion(1, R1), Link(1), End(1)]
  }

  lemma FreshIsAtRest()
    ensures AtRest(FRESH, map[])
  {
  }

  lemma RunOn(assign: Assign, s: Sys, es: seq<Event>, k: nat, s': Sys)
    requires k < |es| && Next(assign, s, es[k]) == Some(s')
    ensures Run(assign, s, es[k..]) == Run(assign, s', es[k + 1..])
    ensures k + 1 == |es| ==> Run(assign, s', es[k + 1..]) == Some(s')
  {
    assert es[k..][0] == es[k] && es[k..][1..] == es[k + 1..];
  }

  /** The states of the counterexample: what transactions 1 and 2 are doing, over one heap. */
  function Two(heap: Heap, locks: map<RID, TxID>, one: Pc, two: Pc): Sys {
    Sys(heap, locks, map[1 := Tx(ACTIVE, {R0}, one, Some(Cursor(0, 1, 1))), 2 := Tx(ACTIVE, {}, two, None)], 3)
  }

  function Heap0(): Heap { map[R0 := Version(Header(1, 0, R0, R0), [Int(10)])] }

  function Heap1(): Heap { Heap0()[R1 := Version(Header(1, 0, R1, R0), [Int(20)])] }

  const SCANNING := At(R0, R0, UpdateScan)

  const STALE := Fetched(R0, R0, Header(1, 0, R0, R0), Query)

  lemma OvertakenRuns(assign: Assign)
    ensures Run(assign, FRESH, Overtaken()) == Some(Two(Heap0(), map[], SCANNING, STALE))
  {
    hide Run;
    var es := Overtaken();
    assert es[0..] == es;
    var none: set<RID> := {};
    var s1 := Sys(map[], map[], map[1 := Tx(ACTIVE, none, Idle, None)], 2);
    RunOn(assign, FRESH, es, 0, s1);
    var s2 := Sys(map[], map[], map[1 := Tx(ACTIVE, none, Idle, None), 2 := Tx(ACTIVE, none, Idle, None)], 3);
    RunOn(assign, s1, es, 1, s2);
    var s3 := Goto(s2.(heap := Heap0()), 1, Inserted(R0));
    RunOn(assign, s2, es, 2, s3);
    var s4 := Sys(Heap0(), map[], map[1 := Tx(ACTIVE, {R0}, Idle, None), 2 := Tx(ACTIVE, none, Idle, None)], 3);
    assert none + {R0} == {R0};
    assert Goto(Remember(s3, 1, R0), 1, Idle).txs == s4.txs;
    RunOn(assign, s3, es, 3, s4);
    OvertakenScans(assign, s4);
  }

  lemma OvertakenScans(assign: Assign, s4: Sys)
    requires s4 == Sys(Heap0(), map[], map[1 := Tx(ACTIVE, {R0}, Idle, None), 2 := Tx(ACTIVE, {}, Idle, None)], 3)
    ensures Run(assign, s4, Overtaken()[4..]) == Some(Two(Heap0(), map[], SCANNING, STALE))
  {
    hide Run;
    var es := Overtaken();
    var s5 := MoveCursor(s4, 1, Cursor(0, 0, 1));
    RunOn(assign, s4, es, 4, s5);
    var s6 := Two(Heap0(), map[], SCANNING, Idle);
    assert Goto(MoveCursor(s5, 1, Cursor(0, 1, 1)), 1, SCANNING).txs == s6.txs;
    RunOn(assign, s5, es, 5, s6);
    var s7 := Two(Heap0(), map[], SCANNING, At(R0, R0, Query));
    assert Goto(s6, 2, At(R0, R0, Query)).txs == s7.txs;
    RunOn(assign, s6, es, 6, s7);
    assert Goto(s7, 2, STALE).txs == Two(Heap0(), map[], SCANNING, STALE).txs;
    RunOn(assign, s7, es, 7, Two(Heap0(), map[], SCANNING, STALE));
  }

  /** A step of transaction 1 that only moves it along. */
  lemma OneMoves(assign: Assign, heap: Heap, locks: map<RID, TxID>, pc: Pc, pc': Pc)
    ensures Goto(Two(heap, locks, pc, STALE), 1, pc') == Two(heap, locks, pc', STALE)
    ensures Active(Two(heap, locks, pc, STALE)) == {1, 2}
  {
    assert Goto(Two(heap, locks, pc, STALE), 1, pc').txs == Two(heap, locks, pc', STALE).txs;
  }

  /** Transaction 1 scans the tuple it inserted, locks it and re-reads it. */
  lemma OvertakingScans(assign: Assign)
    ensures Run(assign, Two(Heap0(), map[], SCANNING, STALE), Overtaking())
         == Run(assign, Two(Heap0(), map[], Matched(R0), STALE), Overtaking()[2..])
  {
    hide Run;
    var es, h, hdr := Overtaking(), Heap0(), Header(1, 0, R0, R0);
    assert es[0..] == es;
    var p1, p2 := SCANNING, Fetched(R0, R0, hdr, UpdateScan);
    OneMoves(assign, h, map[], p1, p2);
    RunOn(assign, Two(h, map[], p1, STALE), es, 0, Two(h, map[], p2, STALE));
    OneMoves(assign, h, map[], p2, Matched(R0));
    RunOn(assign, Two(h, map[], p2, STALE), es, 1, Two(h, map[], Matched(R0), STALE));
  }

  lemma OvertakingLocks(assign: Assign)
    ensures Run(assign, Two(Heap0(), map[], Matched(R0), STALE), Overtaking()[2..])
         == Run(assign, Two(Heap0(), map[R0 := 1], Chosen(R0, R0), STALE), Overtaking()[5..])
  {
    hide Run;
    var es, h, hdr, locks := Overtaking(), Heap0(), Header(1, 0, R0, R0), map[R0 := 1];
    var p3, p4, p5 := Matched(R0), At(R0, R0, Reread), Fetched(R0, R0, hdr, Reread);
    assert {R0} + {R0} == {R0};
    assert Remember(Two(h, locks, p3, STALE), 1, R0).txs == Two(h, locks, p3, STALE).txs;
    OneMoves(assign, h, locks, p3, p4);
    RunOn(assign, Two(h, map[], p3, STALE), es, 2, Two(h, locks, p4, STALE));
    OneMoves(assign, h, locks, p4, p5);
    RunOn(assign, Two(h, locks, p4, STALE), es, 3, Two(h, locks, p5, STALE));
    OneMoves(assign, h, locks, p5, Chosen(R0, R0));
    RunOn(assign, Two(h, locks, p5, STALE), es, 4, Two(h, locks, Chosen(R0, R0), STALE));
  }

  function Heap2(): Heap { Heap1()[R0 := Version(Header(1, 1, R1, R0), [Int(10)])] }

  /** Then it writes the new version, */
  lemma OvertakingInserts(assign: Assign)
    requires assign([Int(10)], [Int(20)])
    ensures Run(assign, Two(Heap0(), map[R0 := 1], Chosen(R0, R0), STALE), Overtaking()[5..])
         == Run(assign, Two(Heap1(), map[R0 := 1], Orphaned(R0, R0, R0, R1), STALE), Overtaking()[8..])
  {
    hide Run;
    var es, h, locks, rec := Overtaking(), Heap0(), map[R0 := 1], [Int(20)];
    var p6, p7, p8, p9 := Chosen(R0, R0), Finding(R0, R0, R0, rec), Located(R0, R0, R0, rec), Orphaned(R0, R0, R0, R1);
    OneMoves(assign, h, locks, p6, p7);
    RunOn(assign, Two(h, locks, p6, STALE), es, 5, Two(h, locks, p7, STALE));
    OneMoves(assign, h, locks, p7, p8);
    RunOn(assign, Two(h, locks, p7, STALE), es, 6, Two(h, locks, p8, STALE));
    OneMoves(assign, Heap1(), locks, p8, p9);
    RunOn(assign, Two(h, locks, p8, STALE), es, 7, Two(Heap1(), locks, p9, STALE));
  }

  /** links it and commits. */
  lemma OvertakingLinks(assign: Assign) returns (s: Sys)
    ensures Run(assign, Two(Heap1(), map[R0 := 1], Orphaned(R0, R0, R0, R1), STALE), Overtaking()[8..]) == Some(s)
    ensures Active(s) == {2} && s.heap == Heap2()
  {
    hide Run;
    var es, locks, p9 := Overtaking(), map[R0 := 1], Orphaned(R0, R0, R0, R1);
    OneMoves(assign, Heap2(), locks, p9, Idle);
    assert LinkVersion(Heap1(), R0, 1, R1) == Heap2();
    RunOn(assign, Two(Heap1(), locks, p9, STALE), es, 8, Two(Heap2(), locks, Idle, STALE));
    s := Ended(Two(Heap2(), locks, Idle, STALE), 1).value;
    RunOn(assign, Two(Heap2(), locks, Idle, STALE), es, 9, s);
    OneMoves(assign, Heap2(), locks, Idle, Idle);
    StepActive(assign, Two(Heap2(), locks, Idle, STALE), End(1));
    assert {1, 2} - {1} == {2};
  }

  /**
   * READ COMMITTED is broken by the gap between the two look-ups: transaction 2 returns the first version of
   * the tuple although in no state of the run was it the version to read: it is not committed while its
   * writer runs, and it is superseded by the time the writer commits.
   */
  lemma IntermediateRead(assign: Assign)
    requires assign([Int(10)], [Int(20)])
    ensures Run(assign, FRESH, Overtaken()).Some?
    ensures var s := Run(assign, FRESH, Overtaken()).value;
      && 2 in s.txs && s.txs[2].pc == STALE && Others(Overtaking(), 2)
      && Run(assign, s, Overtaking()).Some?
      && Decide(STALE.hdr, 2, Active(Run(assign, s, Overtaking()).value)) == Found
      && !VisibleSometime(assign, s, 2, R0, Overtaking())
  {
    hide Run, Next, NextChains, Watching, VisibleSometime;
    OvertakenRuns(assign);
    var s2 := OvertakingRuns(assign);
    OvertakenWatched(assign);
    var s, ch := Two(Heap0(), map[], SCANNING, STALE), RunChains(assign, FRESH, map[], Overtaken());
    IntermediateNeverVisible(assign, map[], s, ch, 2, R0, Overtaking());
  }

  lemma OvertakingRuns(assign: Assign) returns (s: Sys)
    requires assign([Int(10)], [Int(20)])
    ensures Run(assign, Two(Heap0(), map[], SCANNING, STALE), Overtaking()) == Some(s)
    ensures Active(s) == {2} && s.heap == Heap2()
  {
    hide Run, Two, Overtaking;
    OvertakingScans(assign);
    OvertakingLocks(assign);
    OvertakingInserts(assign);
    s := OvertakingLinks(assign);
  }

  lemma OvertakenWatched(assign: Assign)
    requires assign([Int(10)], [Int(20)])
    ensures var s := Two(Heap0(), map[], SCANNING, STALE);
      Watching(assign, map[], s, RunChains(assign, FRESH, map[], Overtaken()), 2, R0, Overtaking())
  {
    hide Run, Next, NextChains, Inv, AtRest, Overtaken;
    FreshIsAtRest();
    AtRestIsInv(assign, FRESH, map[]);
    OvertakenRuns(assign);
    RunInv(assign, map[], FRESH, map[], Overtaken());
    OneMoves(assign, Heap0(), map[], Idle, Idle);
    var s2 := OvertakingRuns(assign);
  }
}
