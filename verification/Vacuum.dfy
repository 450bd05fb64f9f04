/** `full_vacuum`: every chain shrinks to its last version, tombstoned chains go, empty pages are cut off. */
module Vacuum {
  import opened Model
  import opened Versions
  import opened Pages
  import opened Transactions
  import opened HeapFiles
  import opened Scans
  import opened Bags

  // ---------------------------------------------------------------- what it leaves of a heap

  ghost predicate Dropped(heap: Heap, c: seq<RID>)
    requires c != [] && Last(c) in heap
  {
    Tombstone(heap[Last(c)].header)
  }

  /** The last version as the only one of its tuple. */
  function Lone(heap: Heap, r: RID): Version
    requires r in heap
  {
    heap[r].(header := heap[r].header.(first := r))
  }

  /** Chain `c` of `heap0` after its collapse. */
  ghost predicate Collapsed(heap0: Heap, heap: Heap, c: seq<RID>)
    requires c != [] && Last(c) in heap0
  {
    && (forall i :: 0 <= i < |c| - 1 ==> c[i] !in heap)
    && (if Dropped(heap0, c) then Last(c) !in heap else Last(c) in heap && heap[Last(c)] == Lone(heap0, Last(c)))
  }

  ghost predicate Intact(heap0: Heap, heap: Heap, c: seq<RID>) {
    forall i :: 0 <= i < |c| ==> c[i] in heap0 && c[i] in heap && heap[c[i]] == heap0[c[i]]
  }

  /** With the sweep at (page, slot), the chains up to there are collapsed and the others untouched. */
  ghost predicate Cleaned(heap0: Heap, ch: Chains, heap: Heap, page: int, slot: int) {
    && Chained(heap0, ch) && heap.Keys <= heap0.Keys
    && (forall f :: f in ch ==> ch[f] != [] && Last(ch[f]) in heap0)
    && (forall f :: f in ch ==> Aside(heap0, heap, ch[f], After(page, slot, f)))
  }

  /** A chain that the sweep has still before it, or has collapsed. */
  ghost predicate Aside(heap0: Heap, heap: Heap, c: seq<RID>, after: bool)
    requires c != [] && Last(c) in heap0
  {
    if after then Intact(heap0, heap, c) else Collapsed(heap0, heap, c)
  }

  /** Within the collapse of one chain: the first `i` versions are gone. */
  ghost predicate Collapsing(heap0: Heap, ch: Chains, heap: Heap, f: RID, i: int) {
    && Chained(heap0, ch) && heap.Keys <= heap0.Keys && f in ch && 0 <= i < |ch[f]| && Last(ch[f]) in heap0
    && (forall g :: g in ch ==> ch[g] != [] && Last(ch[g]) in heap0)
    && (forall j :: 0 <= j < i ==> ch[f][j] !in heap)
    && (forall j :: i <= j < |ch[f]| ==> ch[f][j] in heap && ch[f][j] in heap0 && heap[ch[f][j]] == heap0[ch[f][j]])
    && (forall g :: g in ch && g != f ==> Aside(heap0, heap, ch[g], After(f.pageNum, f.dirSlot, g)))
  }

  lemma CleanBegins(heap: Heap, ch: Chains)
    requires Chained(heap, ch) && forall r :: r in heap ==> r.Proper()
    ensures Cleaned(heap, ch, heap, 0, -1)
  {
    forall f | f in ch ensures ch[f] != [] && Last(ch[f]) in heap && After(0, -1, f) {
      assert IsChain(heap, f, ch[f]) && ch[f][0] == f;
    }
  }

  /** Moving on by one slot concerns only the tuple that starts there. */
  lemma NextSlot(heap0: Heap, ch: Chains, heap: Heap, p: int, k: int)
    requires Cleaned(heap0, ch, heap, p, k - 1)
    requires RID(p, k) in ch ==> Collapsed(heap0, heap, ch[RID(p, k)])
    ensures Cleaned(heap0, ch, heap, p, k)
  {
    hide Chained, Collapsed, Intact;
    assert forall f :: f in ch && f != RID(p, k) ==> (After(p, k - 1, f) <==> After(p, k, f));
    assert !After(p, k, RID(p, k));
  }

  /** A tuple that the sweep has not reached is as it was. */
  lemma Unreached(heap0: Heap, ch: Chains, heap: Heap, p: int, k: int)
    requires Cleaned(heap0, ch, heap, p, k - 1) && RID(p, k) in ch
    ensures var r, c := RID(p, k), ch[RID(p, k)];
      IsChain(heap0, r, c) && c[0] == r && r in heap0 && r in heap && heap[r] == heap0[r] && heap0[r].header.first == r
  {
    assert IsChain(heap0, RID(p, k), ch[RID(p, k)]);
  }

  /** A slot without a first version is passed. */
  lemma PassSlot(heap0: Heap, ch: Chains, heap: Heap, p: int, k: int)
    requires Cleaned(heap0, ch, heap, p, k - 1)
    requires RID(p, k) in heap ==> heap[RID(p, k)].header.first != RID(p, k)
    ensures Cleaned(heap0, ch, heap, p, k)
  {
    hide Cleaned;
    if RID(p, k) in ch { Unreached(heap0, ch, heap, p, k); }
    NextSlot(heap0, ch, heap, p, k);
  }

  /** So is a tuple of one live version, and the last version of a chain that was collapsed before. */
  lemma PassSingle(heap0: Heap, ch: Chains, heap: Heap, p: int, k: int)
    requires Cleaned(heap0, ch, heap, p, k - 1)
    requires RID(p, k) in heap && heap[RID(p, k)].header.first == RID(p, k) && heap[RID(p, k)].header.tMax == 0
    ensures Cleaned(heap0, ch, heap, p, k)
  {
    hide Cleaned;
    var r := RID(p, k);
    if r in ch {
      Unreached(heap0, ch, heap, p, k);
      assert |ch[r]| > 1 ==> Linked(heap0, ch[r][0], ch[r][1]);
      assert |ch[r]| == 1;
    }
    NextSlot(heap0, ch, heap, p, k);
  }

  /** A first version with a nonzero t_max heads a chain that still has to be collapsed. */
  lemma CollapseBegins(heap0: Heap, ch: Chains, heap: Heap, p: int, k: int)
    requires Cleaned(heap0, ch, heap, p, k - 1)
    requires RID(p, k) in heap && heap[RID(p, k)].header.first == RID(p, k) && heap[RID(p, k)].header.tMax != 0
    ensures Collapsing(heap0, ch, heap, RID(p, k), 0) && RID(p, k) in ch
    ensures ch[RID(p, k)] != [] && ch[RID(p, k)][0] == RID(p, k)
  {
    hide *;
    var r := RID(p, k);
    HeadsItsChain(heap0, ch, heap, p, k);
    CleanedFacts(heap0, ch, heap, p, k - 1);
    NextAfter(p, k);
    WholeIfAfter(heap0, heap, ch[r]);
    forall g | g in ch && g != r ensures Aside(heap0, heap, ch[g], After(p, k, g)) {
      assert Aside(heap0, heap, ch[g], After(p, k - 1, g));
    }
    CollapsingFrom0(heap0, ch, heap, r);
  }

  lemma NextAfter(p: int, k: int)
    ensures After(p, k - 1, RID(p, k)) && !After(p, k, RID(p, k))
    ensures forall g :: g != RID(p, k) ==> (After(p, k - 1, g) <==> After(p, k, g))
  {
  }

  lemma WholeIfAfter(heap0: Heap, heap: Heap, c: seq<RID>)
    requires c != [] && Last(c) in heap0
    ensures Aside(heap0, heap, c, true) ==> Intact(heap0, heap, c)
  {
  }

  lemma CollapsingFrom0(heap0: Heap, ch: Chains, heap: Heap, f: RID)
    requires Chained(heap0, ch) && heap.Keys <= heap0.Keys && f in ch && Intact(heap0, heap, ch[f])
    requires forall g :: g in ch ==> ch[g] != [] && Last(ch[g]) in heap0
    requires forall g :: g in ch && g != f ==> Aside(heap0, heap, ch[g], After(f.pageNum, f.dirSlot, g))
    ensures Collapsing(heap0, ch, heap, f, 0)
  {
    hide Chained, Aside, After, Last;
  }

  lemma CleanedFacts(heap0: Heap, ch: Chains, heap: Heap, page: int, slot: int)
    requires Cleaned(heap0, ch, heap, page, slot)
    ensures Chained(heap0, ch) && heap.Keys <= heap0.Keys
    ensures forall f :: f in ch ==>
      ch[f] != [] && Last(ch[f]) in heap0 && Aside(heap0, heap, ch[f], After(page, slot, f))
  {
  }

  lemma HeadsItsChain(heap0: Heap, ch: Chains, heap: Heap, p: int, k: int)
    requires Cleaned(heap0, ch, heap, p, k - 1)
    requires RID(p, k) in heap && heap[RID(p, k)].header.first == RID(p, k) && heap[RID(p, k)].header.tMax != 0
    ensures RID(p, k) in ch && ch[RID(p, k)] != [] && ch[RID(p, k)][0] == RID(p, k)
  {
    var r := RID(p, k);
    var f := heap0[r].header.first;
    assert f in ch && r in ch[f] && IsChain(heap0, f, ch[f]) && ch[f][0] == f;
    assert Ends(heap0, Last(ch[f]));
    assert f == r;
  }

  /** What the loop over one chain reads in the header of version `i`. */
  lemma CollapseTurn(heap0: Heap, ch: Chains, heap: Heap, f: RID, i: nat)
    requires Collapsing(heap0, ch, heap, f, i)
    ensures var c := ch[f]; var h := heap[c[i]].header;
      && c[i] in heap
      && (h.next == c[i] <==> i == |c| - 1 && !Dropped(heap0, c))
      && (h.next == DELETED <==> i == |c| - 1 && Dropped(heap0, c))
      && (i < |c| - 1 ==> h.next == c[i + 1] && h.tMax != 0)
  {
    var c := ch[f];
    assert IsChain(heap0, f, c);
    if i < |c| - 1 { assert Linked(heap0, c[i], c[i + 1]); } else { assert Ends(heap0, c[i]); }
  }

  /** What happens at one RID of tuple `f` does not concern tuple `g`. */
  lemma OtherTuple(heap0: Heap, heap: Heap, heap': Heap, x: RID, g: RID, c: seq<RID>)
    requires IsChain(heap0, g, c) && x in heap0 && heap0[x].header.first != g
    requires forall r :: r != x ==> ((r in heap' <==> r in heap) && (r in heap ==> heap'[r] == heap[r]))
    ensures Intact(heap0, heap, c) ==> Intact(heap0, heap', c)
    ensures Collapsed(heap0, heap, c) ==> Collapsed(heap0, heap', c)
  {
    assert forall i :: 0 <= i < |c| ==> c[i] != x;
    hide IsChain;
  }

  /** All tuples but `f` keep their state when something happens at one RID of `f`. */
  lemma OtherTuples(heap0: Heap, ch: Chains, heap: Heap, heap': Heap, f: RID, x: RID, i: int)
    requires Collapsing(heap0, ch, heap, f, i) && x in heap0 && heap0[x].header.first == f
    requires forall r :: r != x ==> ((r in heap' <==> r in heap) && (r in heap ==> heap'[r] == heap[r]))
    ensures forall g :: g in ch && g != f ==> ch[g] != [] && Last(ch[g]) in heap0
    ensures forall g :: g in ch && g != f ==> Aside(heap0, heap', ch[g], After(f.pageNum, f.dirSlot, g))
  {
    assert forall g :: g in ch ==> ch[g] != [] && Last(ch[g]) in heap0;
    forall g | g in ch && g != f ensures Aside(heap0, heap', ch[g], After(f.pageNum, f.dirSlot, g)) {
      assert Aside(heap0, heap, ch[g], After(f.pageNum, f.dirSlot, g));
      hide Intact, Collapsed, IsChain;
      OtherTuple(heap0, heap, heap', x, g, ch[g]);
    }
  }

  lemma VersionFacts(heap0: Heap, ch: Chains, f: RID, i: nat)
    requires Chained(heap0, ch) && f in ch && i < |ch[f]|
    ensures ch[f][i] in heap0 && heap0[ch[f][i]].header.first == f
    ensures forall j :: 0 <= j < |ch[f]| && j != i ==> ch[f][j] != ch[f][i]
  {
    assert IsChain(heap0, f, ch[f]);
  }

  lemma VersionIn(heap0: Heap, ch: Chains, heap: Heap, f: RID, i: nat)
    requires Collapsing(heap0, ch, heap, f, i)
    ensures ch[f][i] in heap0 && heap0[ch[f][i]].header.first == f
  {
    VersionFacts(heap0, ch, f, i);
  }

  /** Deleting version `i` moves on in the chain, or finishes a tombstoned one. */
  lemma CollapseDelete(heap0: Heap, ch: Chains, heap: Heap, f: RID, i: nat)
    requires Collapsing(heap0, ch, heap, f, i)
    ensures i < |ch[f]| - 1 ==> Collapsing(heap0, ch, heap - {ch[f][i]}, f, i + 1)
    ensures i == |ch[f]| - 1 && Dropped(heap0, ch[f]) ==> Cleaned(heap0, ch, heap - {ch[f][i]}, f.pageNum, f.dirSlot)
  {
    hide Intact, Collapsed, Chained;
    VersionFacts(heap0, ch, f, i);
    var x, heap' := ch[f][i], heap - {ch[f][i]};
    OtherTuples(heap0, ch, heap, heap', f, x, i);
    if i == |ch[f]| - 1 && Dropped(heap0, ch[f]) { FullyDeleted(heap0, heap', ch[f]); }
  }

  lemma FullyDeleted(heap0: Heap, heap: Heap, c: seq<RID>)
    requires c != [] && Last(c) in heap0 && Dropped(heap0, c) && forall i :: 0 <= i < |c| ==> c[i] !in heap
    ensures Collapsed(heap0, heap, c)
  {
  }

  lemma FullyRerooted(heap0: Heap, heap: Heap, c: seq<RID>)
    requires c != [] && Last(c) in heap0 && !Dropped(heap0, c) && forall i :: 0 <= i < |c| - 1 ==> c[i] !in heap
    requires Last(c) in heap && heap[Last(c)] == Lone(heap0, Last(c))
    ensures Collapsed(heap0, heap, c)
  {
  }

  /** Re-rooting the last version finishes a live chain. */
  lemma CollapseReroot(heap0: Heap, ch: Chains, heap: Heap, f: RID)
    requires f in ch && ch[f] != [] && Collapsing(heap0, ch, heap, f, |ch[f]| - 1) && !Dropped(heap0, ch[f])
    ensures Last(ch[f]) in heap
    ensures Cleaned(heap0, ch, heap[Last(ch[f]) := Lone(heap, Last(ch[f]))], f.pageNum, f.dirSlot)
  {
    hide Intact, Collapsed, Chained;
    VersionFacts(heap0, ch, f, |ch[f]| - 1);
    var x, heap' := Last(ch[f]), heap[Last(ch[f]) := Lone(heap, Last(ch[f]))];
    OtherTuples(heap0, ch, heap, heap', f, x, |ch[f]| - 1);
    FullyRerooted(heap0, heap', ch[f]);
  }

  // ---------------------------------------------------------------- the page operations

  lemma {:induction false} TrimmedBytes(slots: seq<Slot>)
    ensures LiveBytes(Trimmed(slots)) == LiveBytes(slots) && |Trimmed(slots)| <= |slots|
  {
    if |slots| > 1 && slots[|slots| - 1].Dead? { TrimmedBytes(slots[..|slots| - 1]); }
  }

  /** Vacuum of one page: the same versions at the same RIDs, and all the space that they leave is free. */
  lemma VacuumedPage(pages: seq<HeapPage>, p: nat)
    requires AllFit(pages) && p < |pages| && pages[p].slots != []
    ensures var pages' := pages[p := Vacuumed(pages[p])];
      && AllFit(pages') && Flat(pages') == Flat(pages) && pages'[p].slots != [] && pages'[p].free >= pages[p].free
      && pages'[p].free == EMPTY_FREE - DIR_SIZE * |pages'[p].slots| - LiveBytes(pages'[p].slots)
      && (forall k :: 0 <= k < |pages'[p].slots| ==> pages'[p].slots[k] == pages[p].slots[k])
  {
    TrimmedBytes(pages[p].slots);
    SameSlots(pages, pages[p := Vacuumed(pages[p])]);
  }

  /** Space that a page has lost: neither free nor used. */
  function Slack(p: HeapPage): int {
    EMPTY_FREE - DIR_SIZE * |p.slots| - LiveBytes(p.slots) - p.free
  }

  /** No space is lost, and the directory ends with a live slot unless it has one slot only. */
  ghost predicate Neat(p: HeapPage) {
    Slack(p) == 0 && (|p.slots| > 1 ==> p.slots[|p.slots| - 1].Live?)
  }

  /** A version on page `q` of a tuple that starts on a later page. */
  ghost predicate FromLater(heap: Heap, q: int, r: RID) {
    r in heap && r.pageNum == q && heap[r].header.first.pageNum > q
  }

  /** The pages before `p` were vacuumed; since then they lost the space of versions of later tuples, and no other. */
  ghost predicate Books(heap0: Heap, pages: seq<HeapPage>, p: int) {
    forall q :: 0 <= q < p && q < |pages| ==> BookOk(heap0, pages, q)
  }

  ghost predicate BookOk(heap0: Heap, pages: seq<HeapPage>, q: int)
    requires 0 <= q < |pages|
  {
    Neat(pages[q]) <==> forall r :: FromLater(heap0, q, r) ==> r in Flat(pages)
  }

  lemma BooksBegin(heap0: Heap, pages: seq<HeapPage>)
    ensures Books(heap0, pages, 0)
  {
  }

  /** A slot that dies costs its page the space, and concerns no other page. */
  lemma BooksAfterDelete(heap0: Heap, pages: seq<HeapPage>, p: int, r: RID)
    requires AllFit(pages) && Books(heap0, pages, p) && SlotAt(pages, r).Live?
    requires r in heap0 && heap0[r].header.first.pageNum >= p
    ensures Books(heap0, SetSlot(pages, r, Dead), p)
  {
    var pages' := SetSlot(pages, r, Dead);
    SetSlotEffect(pages, r, Dead);
    SlackAfter(pages[r.pageNum], r.dirSlot, Dead);
    hide Flat, SlotAt, AllFit, Slack, LiveBytes;
    forall q | 0 <= q < p && q < |pages'|
      ensures BookOk(heap0, pages', q)
    {
      assert BookOk(heap0, pages, q);
      if q == r.pageNum {
        assert FromLater(heap0, q, r) && r !in Flat(pages');
      } else {
        assert forall x :: FromLater(heap0, q, x) ==> x != r;
      }
    }
  }

  lemma SlackAfter(p: HeapPage, k: nat, slot: Slot)
    requires Fits(p) && k < |p.slots| && p.slots[k].Live?
    ensures slot.Dead? ==> !Neat(p.(slots := p.slots[k := slot]))
    ensures slot.Live? && slot.v.record == p.slots[k].v.record ==> (Neat(p.(slots := p.slots[k := slot])) <==> Neat(p))
  {
    LiveBytesUpdate(p.slots, k, slot);
  }

  /** A rewritten header costs nothing. */
  lemma BooksAfterReset(heap0: Heap, pages: seq<HeapPage>, p: int, r: RID, v: Version)
    requires AllFit(pages) && Books(heap0, pages, p) && SlotAt(pages, r).Live? && v.record == SlotAt(pages, r).v.record
    ensures Books(heap0, SetSlot(pages, r, Live(v)), p)
  {
    var pages' := SetSlot(pages, r, Live(v));
    SetSlotEffect(pages, r, Live(v));
    SlackAfter(pages[r.pageNum], r.dirSlot, Live(v));
    hide Flat, SlotAt, AllFit, Slack, LiveBytes;
    forall q | 0 <= q < p && q < |pages'|
      ensures BookOk(heap0, pages', q)
    {
      assert BookOk(heap0, pages, q);
    }
  }

  /** The vacuum of page `p`, before which no later tuple was touched. */
  lemma BooksAfterVacuum(heap0: Heap, ch: Chains, pages: seq<HeapPage>, p: nat)
    requires AllFit(pages) && p < |pages| && pages[p].slots != [] && Books(heap0, pages, p)
    requires Cleaned(heap0, ch, Flat(pages), p + 1, -1)
    ensures Books(heap0, pages[p := Vacuumed(pages[p])], p + 1)
  {
    hide *;
    PageIsNeat(pages, p);
    LaterIntact(heap0, ch, Flat(pages), p);
    var pages' := pages[p := Vacuumed(pages[p])];
    forall q | 0 <= q < p ensures BookOk(heap0, pages', q) {
      OneBook(heap0, pages, p, q);
      SameBook(heap0, pages, pages', q);
    }
    NewBook(heap0, pages', p);
    AllBooks(heap0, pages', p + 1);
  }

  lemma PageIsNeat(pages: seq<HeapPage>, p: nat)
    requires AllFit(pages) && p < |pages| && pages[p].slots != []
    ensures Flat(pages[p := Vacuumed(pages[p])]) == Flat(pages) && Neat(Vacuumed(pages[p]))
  {
    VacuumedNeat(pages[p]);
    hide Flat, Neat;
    VacuumedPage(pages, p);
  }

  lemma OneBook(heap0: Heap, pages: seq<HeapPage>, p: int, q: int)
    requires Books(heap0, pages, p) && 0 <= q < p && q < |pages|
    ensures BookOk(heap0, pages, q)
  {
  }

  lemma SameBook(heap0: Heap, pages: seq<HeapPage>, pages': seq<HeapPage>, q: int)
    requires 0 <= q < |pages| == |pages'| && pages'[q] == pages[q] && Flat(pages') == Flat(pages)
    requires BookOk(heap0, pages, q)
    ensures BookOk(heap0, pages', q)
  {
    hide Flat, Neat, FromLater;
  }

  lemma NewBook(heap0: Heap, pages: seq<HeapPage>, q: int)
    requires 0 <= q < |pages| && Neat(pages[q]) && forall r :: FromLater(heap0, q, r) ==> r in Flat(pages)
    ensures BookOk(heap0, pages, q)
  {
    hide Flat, Neat, FromLater;
  }

  lemma AllBooks(heap0: Heap, pages: seq<HeapPage>, p: int)
    requires p <= |pages| && forall q :: 0 <= q < p ==> BookOk(heap0, pages, q)
    ensures Books(heap0, pages, p)
  {
    hide BookOk;
  }

  lemma VacuumedNeat(p: HeapPage)
    requires Fits(p) && p.slots != []
    ensures Neat(Vacuumed(p))
  {
    TrimmedBytes(p.slots);
  }

  lemma LaterIntact(heap0: Heap, ch: Chains, heap: Heap, p: nat)
    requires Cleaned(heap0, ch, heap, p + 1, -1)
    ensures forall r :: FromLater(heap0, p, r) ==> r in heap
  {
    forall r | FromLater(heap0, p, r) ensures r in heap {
      var f := heap0[r].header.first;
      FirstIn(heap0, ch, f);
      assert Aside(heap0, heap, ch[f], After(p + 1, -1, f));
    }
  }

  /** The directory entry becomes -2. */
  method DeletePhysically(file: HeapFile, r: RID)
    requires file.Valid() && r in Flat(file.pages)
    modifies file`pages
    ensures file.Valid() && Flat(file.pages) == old(Flat(file.pages)) - {r} && SameShape(old(file.pages), file.pages)
    ensures file.pages == SetSlot(old(file.pages), r, Dead)
  {
    hide Flat, AllFit;
    SetSlotEffect(file.pages, r, Dead);
    file.pages := SetSlot(file.pages, r, Dead);
  }

  method ResetFirst(file: HeapFile, r: RID)
    requires file.Valid() && r in Flat(file.pages)
    modifies file`pages
    ensures file.Valid() && Flat(file.pages) == old(Flat(file.pages))[r := Lone(old(Flat(file.pages)), r)]
    ensures SameShape(old(file.pages), file.pages)
    ensures file.pages == SetSlot(old(file.pages), r, Live(Lone(old(Flat(file.pages)), r)))
  {
    hide Flat, AllFit;
    var v := file.pages[r.pageNum].slots[r.dirSlot].v;
    var slot := Live(v.(header := v.header.(first := r)));
    SetSlotEffect(file.pages, r, slot);
    file.pages := SetSlot(file.pages, r, slot);
  }

  /** What `full_vacuum` demands of a file; a page without directory would get a slot of stray bytes. */
  ghost predicate ReadyAgain(pages: seq<HeapPage>) {
    forall q :: 0 <= q < |pages| ==> pages[q].slots != []
  }

  /** Same pages with the same numbers of slots. */
  ghost predicate SameShape(pages: seq<HeapPage>, pages': seq<HeapPage>) {
    |pages'| == |pages| && forall p :: 0 <= p < |pages| ==> |pages'[p].slots| == |pages[p].slots|
  }

  // ---------------------------------------------------------------- the sweep

  /** The loop over the chain that starts at `f`. */
  method CollapseChain(file: HeapFile, f: RID, ghost heap0: Heap, ghost ch: Chains)
    requires file.Valid() && Collapsing(heap0, ch, Flat(file.pages), f, 0) && f in ch && ch[f] != [] && ch[f][0] == f
    requires Books(heap0, file.pages, f.pageNum)
    modifies file`pages
    ensures Books(heap0, file.pages, f.pageNum)
    ensures file.Valid() && SameShape(old(file.pages), file.pages)
    ensures Cleaned(heap0, ch, Flat(file.pages), f.pageNum, f.dirSlot)
  {
    hide Flat, AllFit, Cleaned, Collapsing, Dropped, SlotAt, Books, SetSlot;
    var cur := f;
    ghost var i := 0;
    while true
      invariant file.Valid() && SameShape(old(file.pages), file.pages)
      invariant f in ch && i < |ch[f]| && cur == ch[f][i] && Collapsing(heap0, ch, Flat(file.pages), f, i)
      invariant Books(heap0, file.pages, f.pageNum)
      decreases |ch[f]| - i
    {
      CollapseTurn(heap0, ch, Flat(file.pages), f, i);
      CollapseDelete(heap0, ch, Flat(file.pages), f, i);
      var header := file.GetRecordHeader(cur);
      if cur == header.value.next {
        CollapseReroot(heap0, ch, Flat(file.pages), f);
        BooksAfterReset(heap0, file.pages, f.pageNum, cur, Lone(Flat(file.pages), cur));
        ResetFirst(file, cur);
        return;
      }
      VersionIn(heap0, ch, Flat(file.pages), f, i);
      BooksAfterDelete(heap0, file.pages, f.pageNum, cur);
      DeletePhysically(file, cur);
      if header.value.next == DELETED { return; }
      cur := header.value.next;
      i := i + 1;
    }
  }

  /** No tuple starts behind the last slot of a page. */
  lemma PassPage(heap0: Heap, ch: Chains, pages: seq<HeapPage>, p: nat)
    requires p < |pages| && Cleaned(heap0, ch, Flat(pages), p, |pages[p].slots| - 1)
    ensures Cleaned(heap0, ch, Flat(pages), p + 1, -1)
  {
    hide Chained, Intact, Collapsed;
    var heap := Flat(pages);
    forall f | f in ch ensures After(p, |pages[p].slots| - 1, f) <==> After(p + 1, -1, f) {
      FirstIn(heap0, ch, f);
      assert Aside(heap0, heap, ch[f], After(p, |pages[p].slots| - 1, f));
      if After(p, |pages[p].slots| - 1, f) { IntactFirst(heap0, heap, ch[f]); }
    }
  }

  lemma FirstIn(heap: Heap, ch: Chains, f: RID)
    requires Chained(heap, ch) && f in ch
    ensures f in heap && f.Proper() && ch[f] != [] && ch[f][0] == f
  {
    assert IsChain(heap, f, ch[f]);
  }

  lemma IntactFirst(heap0: Heap, heap: Heap, c: seq<RID>)
    requires Intact(heap0, heap, c) && c != []
    ensures c[0] in heap
  {
  }

  /** All slots of page `p`, then the page's own vacuum. */
  method SweepPage(file: HeapFile, p: nat, ghost heap0: Heap, ghost ch: Chains)
    requires file.Valid() && p < |file.pages| && Cleaned(heap0, ch, Flat(file.pages), p, -1)
    requires ReadyAgain(file.pages) && Books(heap0, file.pages, p)
    modifies file`pages
    ensures file.Valid() && |file.pages| == |old(file.pages)| && Cleaned(heap0, ch, Flat(file.pages), p + 1, -1)
    ensures ReadyAgain(file.pages) && Books(heap0, file.pages, p + 1)
  {
    hide Flat, AllFit, Cleaned, Collapsing, SlotAt, Books, Vacuumed;
    var k := 0;
    while k < |file.pages[p].slots|
      invariant file.Valid() && SameShape(old(file.pages), file.pages) && Books(heap0, file.pages, p)
      invariant k <= |file.pages[p].slots| && Cleaned(heap0, ch, Flat(file.pages), p, k - 1)
      decreases |file.pages[p].slots| - k
    {
      var rid := RID(p, k);
      var header := file.GetRecordHeader(rid);
      if header != None && header.value.first == rid {
        if header.value.tMax != 0 {
          CollapseBegins(heap0, ch, Flat(file.pages), p, k);
          CollapseChain(file, rid, heap0, ch);
        } else {
          PassSingle(heap0, ch, Flat(file.pages), p, k);
        }
      } else {
        PassSlot(heap0, ch, Flat(file.pages), p, k);
      }
      k := k + 1;
    }
    PassPage(heap0, ch, file.pages, p);
    VacuumedPage(file.pages, p);
    BooksAfterVacuum(heap0, ch, file.pages, p);
    file.pages := file.pages[p := Vacuumed(file.pages[p])];
  }

  /** `vacuum` of a file: no version changes, and every page is neat. */
  method VacuumPages(file: HeapFile)
    requires file.Valid() && ReadyAgain(file.pages)
    modifies file
    ensures file.Valid() && file.lastInsertPage == 0 && |file.pages| == |old(file.pages)| && ReadyAgain(file.pages)
    ensures Flat(file.pages) == old(Flat(file.pages)) && forall q :: 0 <= q < |file.pages| ==> Neat(file.pages[q])
  {
    hide Flat, AllFit, Neat, Vacuumed;
    for p := 0 to |file.pages|
      invariant file.Valid() && |file.pages| == |old(file.pages)| && ReadyAgain(file.pages)
      invariant Flat(file.pages) == old(Flat(file.pages)) && forall q :: 0 <= q < p ==> Neat(file.pages[q])
    {
      VacuumedPage(file.pages, p);
      PageIsNeat(file.pages, p);
      file.pages := file.pages[p := Vacuumed(file.pages[p])];
    }
    file.lastInsertPage := 0;
  }

  // ---------------------------------------------------------------- cutting off empty pages

  ghost predicate AllDead(p: HeapPage) {
    forall k :: 0 <= k < |p.slots| ==> p.slots[k].Dead?
  }

  method IsPageEmpty(p: HeapPage) returns (empty: bool)
    ensures empty <==> AllDead(p)
  {
    for i := 0 to |p.slots|
      invariant forall k :: 0 <= k < i ==> p.slots[k].Dead?
    {
      if p.slots[i].Live? { return false; }
    }
    return true;
  }

  /** Pages without a live slot hold no version. */
  lemma DeadPages(pages: seq<HeapPage>, n: nat)
    requires n <= |pages| && forall q :: n <= q < |pages| ==> AllDead(pages[q])
    ensures Flat(pages[..n]) == Flat(pages)
  {
    SameSlots(pages, pages[..n]);
  }

  /** After pages behind `n` were dropped: they read as the disk has them, and one page of zeros is behind them. */
  function Reverted(pages: seq<HeapPage>, disk: seq<HeapPage>, n: int): seq<HeapPage>
    requires -1 <= n <= |pages| == |disk|
  {
    if n == |pages| then pages else pages[..n + 1] + disk[n + 1..] + [ZERO_PAGE]
  }

  lemma RevertedFits(pages: seq<HeapPage>, disk: seq<HeapPage>, n: int)
    requires -1 <= n <= |pages| == |disk| && AllFit(pages) && AllFit(disk)
    ensures AllFit(Reverted(pages, disk, n))
  {
  }

  /**
   * From one page behind the file downwards, empty pages are dropped from the buffer, which brings back what
   * the file holds of them (`disk`), until a page with a record is found.
   */
  method DropEmptyPages(file: HeapFile, disk: seq<HeapPage>) returns (n: int)
    requires file.Valid() && |disk| == |file.pages| && AllFit(disk)
    requires ReadyAgain(file.pages)
    modifies file`pages
    ensures -1 <= n < |disk| && file.Valid() && file.pages == Reverted(old(file.pages), disk, n)
    ensures n >= 0 ==> !AllDead(old(file.pages)[n])
    ensures forall q :: n < q < |disk| ==> AllDead(old(file.pages)[q])
  {
    hide AllFit, AllDead, Flat, SlotsGrow;
    ghost var pages := file.pages;
    var total := |file.pages|;
    n := total;
    while n >= 0
      invariant -1 <= n <= total && file.Valid() && file.pages == Reverted(pages, disk, n)
      invariant forall q :: n < q < total ==> AllDead(pages[q])
    {
      file.OpenPage(n);
      assert n < total ==> file.pages[n] == pages[n];
      var empty := IsPageEmpty(file.pages[n]);
      if !empty {
        NoSlotsAllDead(file.pages[n]);
        assert file.pages == Reverted(pages, disk, n);
        return;
      }
      RevertedFits(pages, disk, n - 1);
      file.pages := file.pages[n := if n < total then disk[n] else ZERO_PAGE];
      assert file.pages == Reverted(pages, disk, n - 1);
      n := n - 1;
    }
  }

  lemma NoSlotsAllDead(p: HeapPage)
    ensures p.slots == [] ==> AllDead(p)
  {
  }

  /** The last loop of `full_vacuum`. The file is truncated only when a page with a record stops the loop. */
  method CutEmptyPages(file: HeapFile, disk: seq<HeapPage>)
    requires file.Valid() && |disk| == |file.pages| && AllFit(disk)
    requires ReadyAgain(file.pages)
    modifies file
    ensures file.Valid() && file.lastInsertPage == 0
    ensures Cut(old(file.pages), disk, file.pages)
  {
    hide Flat, AllDead;
    var total := |file.pages|;
    var n := DropEmptyPages(file, disk);
    file.lastInsertPage := 0;
    if n >= 0 && total != n + 1 {
      file.pages := file.pages[..n + 1];
    }
  }

  /**
   * When a record survives, the file ends with the last page that has one, except that a file whose last page
   * has one is left with a page of zeros more; when none survives, the file is what the disk held, plus a page.
   */
  ghost predicate Cut(pages: seq<HeapPage>, disk: seq<HeapPage>, pages': seq<HeapPage>) {
    if forall q :: 0 <= q < |pages| ==> AllDead(pages[q]) then pages' == disk + [ZERO_PAGE]
    else if !AllDead(pages[|pages| - 1]) then pages' == pages + [ZERO_PAGE]
    else
      && 0 < |pages'| < |pages| && pages' == pages[..|pages'|] && !AllDead(pages'[|pages'| - 1])
      && forall q :: |pages'| <= q < |pages| ==> AllDead(pages[q])
  }

  // ---------------------------------------------------------------- the whole operation

  /** The RIDs of the versions that `full_vacuum` keeps. */
  ghost predicate Survives(heap: Heap, ch: Chains, r: RID) {
    && r in heap && heap[r].header.first in ch && ch[heap[r].header.first] != []
    && Last(ch[heap[r].header.first]) == r && !Tombstone(heap[r].header)
  }

  /** The last version of every live tuple, as a tuple of its own. */
  ghost function Compact(heap: Heap, ch: Chains): Heap {
    map r | r in heap && Survives(heap, ch, r) :: Lone(heap, r)
  }

  ghost function CompactChains(heap: Heap, ch: Chains): Chains {
    map r | r in heap && Survives(heap, ch, r) :: [r]
  }

  lemma CompactIsChained(heap: Heap, ch: Chains)
    requires Chained(heap, ch)
    ensures Chained(Compact(heap, ch), CompactChains(heap, ch))
  {
    forall r | r in heap && Survives(heap, ch, r) ensures IsChain(Compact(heap, ch), r, [r]) {
      assert IsChain(heap, heap[r].header.first, ch[heap[r].header.first]);
    }
  }

  lemma SweptTuple(heap: Heap, ch: Chains, heap': Heap, total: int, f: RID)
    requires Cleaned(heap, ch, heap', total, -1) && f in ch && forall r :: r in heap ==> r.pageNum < total
    ensures ch[f] != [] && Last(ch[f]) in heap && Collapsed(heap, heap', ch[f])
  {
    assert f in heap by { assert IsChain(heap, f, ch[f]) && ch[f][0] == f; }
    hide Collapsed, Chained;
  }

  /** What is left of the version at `r` after the collapse of its chain. */
  lemma LeftOf(heap: Heap, ch: Chains, heap': Heap, r: RID)
    requires Chained(heap, ch) && r in heap && ch[heap[r].header.first] != [] && Last(ch[heap[r].header.first]) in heap
    requires Collapsed(heap, heap', ch[heap[r].header.first])
    ensures r in heap' <==> Survives(heap, ch, r)
    ensures r in heap' ==> heap'[r] == Lone(heap, r)
  {
    hide IsChain;
    var c := ch[heap[r].header.first];
    var i :| 0 <= i < |c| && c[i] == r;
    if i < |c| - 1 { assert r !in heap'; LastOnce(heap, ch, heap[r].header.first, i); }
  }

  lemma LastOnce(heap: Heap, ch: Chains, f: RID, i: nat)
    requires Chained(heap, ch) && f in ch && i < |ch[f]| - 1
    ensures ch[f][i] != Last(ch[f])
  {
    assert IsChain(heap, f, ch[f]);
  }

  lemma CleanEnds(heap: Heap, ch: Chains, heap': Heap, total: int)
    requires Cleaned(heap, ch, heap', total, -1) && forall r :: r in heap ==> r.pageNum < total
    ensures heap' == Compact(heap, ch)
  {
    hide *;
    CleanedFacts(heap, ch, heap', total, -1);
    forall r | r in heap
      ensures r in heap' <==> Survives(heap, ch, r)
      ensures r in heap' ==> heap'[r] == Lone(heap, r)
    {
      InItsChain(heap, ch, r);
      SweptTuple(heap, ch, heap', total, heap[r].header.first);
      LeftOf(heap, ch, heap', r);
    }
    IsCompact(heap, ch, heap');
  }

  lemma InItsChain(heap: Heap, ch: Chains, r: RID)
    requires Chained(heap, ch) && r in heap
    ensures heap[r].header.first in ch
  {
  }

  lemma IsCompact(heap: Heap, ch: Chains, heap': Heap)
    requires heap'.Keys <= heap.Keys
    requires forall r :: r in heap ==> (r in heap' <==> Survives(heap, ch, r))
    requires forall r :: r in heap && r in heap' ==> heap'[r] == Lone(heap, r)
    ensures heap' == Compact(heap, ch)
  {
    hide Survives, Lone;
    assert heap'.Keys == Compact(heap, ch).Keys;
  }

  lemma EmptyPagesEmptyHeap(pages: seq<HeapPage>)
    ensures (forall q :: 0 <= q < |pages| ==> AllDead(pages[q])) <==> Flat(pages) == map[]
  {
    if q, k :| 0 <= q < |pages| && 0 <= k < |pages[q].slots| && pages[q].slots[k].Live? {
      assert RID(q, k) in Flat(pages);
    } else {
      assert Flat(pages).Keys == {};
    }
  }

  /** What the file holds after its empty pages were cut. */
  lemma CutKeepsVersions(pages: seq<HeapPage>, disk: seq<HeapPage>, pages': seq<HeapPage>)
    requires Cut(pages, disk, pages')
    ensures Flat(pages') == if Flat(pages) != map[] then Flat(pages) else Flat(disk)
  {
    EmptyPagesEmptyHeap(pages);
    if Flat(pages) == map[] {
      SameSlots(disk, pages');
    } else if !AllDead(pages[|pages| - 1]) {
      SameSlots(pages, pages');
    } else {
      DeadPages(pages, |pages'|);
    }
  }

  /** A page of zeros is left behind exactly when the last page kept a record, or no page did. */
  lemma CutLeavesZeros(pages: seq<HeapPage>, disk: seq<HeapPage>, pages': seq<HeapPage>)
    requires Cut(pages, disk, pages') && ReadyAgain(pages) && pages != []
    ensures ReadyAgain(pages') <==> Flat(pages) != map[] && forall r :: r in Flat(pages) ==> r.pageNum != |pages| - 1
  {
    EmptyPagesEmptyHeap(pages);
    var last := pages[|pages| - 1];
    if AllDead(last) {
      assert forall r :: r in Flat(pages) ==> r.pageNum != |pages| - 1;
    } else {
      var k :| 0 <= k < |last.slots| && last.slots[k].Live?;
      assert RID(|pages| - 1, k) in Flat(pages);
      assert pages'[|pages|] == ZERO_PAGE;
    }
    if Flat(pages) == map[] { assert pages'[|disk|] == ZERO_PAGE; }
  }

  /**
   * `full_vacuum` of a file of at least one page, all with a directory. Each chain shrinks to its last version
   * and tombstoned chains vanish, provided a record survives; when none does, the file reverts to `disk`.
   */
  method FullVacuum(file: HeapFile, disk: seq<HeapPage>, ghost ch: Chains)
    requires file.Valid() && Chained(Flat(file.pages), ch) && |disk| == |file.pages| >= 1 && AllFit(disk)
    requires ReadyAgain(file.pages)
    modifies file
    ensures file.Valid() && file.lastInsertPage == 0
    ensures Flat(file.pages) ==
      if Compact(old(Flat(file.pages)), ch) != map[] then Compact(old(Flat(file.pages)), ch) else Flat(disk)
    ensures ReadyAgain(file.pages) <==>
      (Compact(old(Flat(file.pages)), ch) != map[]
       && forall r :: r in Compact(old(Flat(file.pages)), ch) ==> r.pageNum != |old(file.pages)| - 1)
    ensures Compact(old(Flat(file.pages)), ch) != map[] ==>
      forall q :: 0 <= q < |old(file.pages)| && q < |file.pages| ==>
        (Neat(file.pages[q]) <==>
          forall r :: FromLater(old(Flat(file.pages)), q, r) ==> Survives(old(Flat(file.pages)), ch, r))
  {
    hide Flat, AllFit, Cleaned, Chained, Cut, SlotAt, Compact, ReadyAgain, Books, Neat, Survives;
    ghost var heap := Flat(file.pages);
    var total := |file.pages|;
    var p := 0;
    CleanBegins(heap, ch);
    BooksBegin(heap, file.pages);
    while p < total
      invariant p <= total == |file.pages| && file.Valid() && Cleaned(heap, ch, Flat(file.pages), p, -1)
      invariant ReadyAgain(file.pages) && Books(heap, file.pages, p)
    {
      SweepPage(file, p, heap, ch);
      p := p + 1;
    }
    InFile(old(file.pages));
    CleanEnds(heap, ch, Flat(file.pages), total);
    ghost var swept := file.pages;
    CutEmptyPages(file, disk);
    CutKeepsVersions(swept, disk, file.pages);
    CutLeavesZeros(swept, disk, file.pages);
    CutKeepsBooks(heap, ch, swept, disk, file.pages);
  }

  lemma CutKeepsBooks(heap: Heap, ch: Chains, pages: seq<HeapPage>, disk: seq<HeapPage>, pages': seq<HeapPage>)
    requires Books(heap, pages, |pages|) && Cut(pages, disk, pages') && Flat(pages) == Compact(heap, ch)
    ensures Flat(pages) != map[] ==> forall q :: 0 <= q < |pages| && q < |pages'| ==>
      (Neat(pages'[q]) <==> forall r :: FromLater(heap, q, r) ==> Survives(heap, ch, r))
  {
    EmptyPagesEmptyHeap(pages);
    hide Flat, Survives, Neat, AllDead;
    forall q | Flat(pages) != map[] && 0 <= q < |pages| && q < |pages'|
      ensures Neat(pages'[q]) <==> forall r :: FromLater(heap, q, r) ==> Survives(heap, ch, r)
    {
      assert pages'[q] == pages[q];
      assert BookOk(heap, pages, q);
    }
  }

  /**
   * A file that `full_vacuum` leaves as it is: one tuple, deleted, on one page that was flushed. No record
   * survives, and what comes back from the disk is the deleted tuple.
   */
  lemma UndoneVacuum() returns (pages: seq<HeapPage>, ch: Chains)
    ensures AllFit(pages) && |pages| == 1 && ReadyAgain(pages) && Chained(Flat(pages), ch)
    ensures pages[0].free == EMPTY_FREE - DIR_SIZE - LiveBytes(pages[0].slots)
    ensures RID(0, 0) in Flat(pages) && Flat(pages)[RID(0, 0)].record == [Int(7)]
    ensures Compact(Flat(pages), ch) == map[] && Flat(pages) != map[]
  {
    var r := RID(0, 0);
    var v := Version(Header(1, 2, DELETED, r), [Int(7)]);
    var slots := [Live(v)];
    pages, ch := [HeapPage(slots, 4044)], map[r := [r]];
    var none: Record := [];
    assert v.record[1..] == none && PayloadSize(v.record) == 8 && Stored(v.record) == v.record;
    assert slots[..0] == [] && LiveBytes(slots) == LiveBytes(slots[..0]) + SlotBytes(slots[0]);
    var heap := Flat(pages);
    forall x | x in heap ensures x == r {}
    assert SlotAt(pages, r) == Live(v);
    assert heap[r] == v;
    assert IsChain(heap, r, [r]);
  }

  lemma InFile(pages: seq<HeapPage>)
    ensures forall r :: r in Flat(pages) ==> r.pageNum < |pages|
  {
  }

  // ---------------------------------------------------------------- scans before and after

  /** With one transaction alone, the current version of a tuple is its last one. */
  lemma {:induction false} AloneSeesLast(heap: Heap, f: RID, c: seq<RID>, tx: TxID)
    requires IsChain(heap, f, c)
    ensures Current(heap, c, tx, {tx}) == if Tombstone(heap[Last(c)].header) then None else Some(Last(c))
  {
  }

  lemma RowAlone(heap: Heap, ch: Chains, tx: TxID, r: RID)
    requires Chained(heap, ch)
    ensures RowAt(heap, ch, tx, {tx}, r) ==
      if r in ch && ch[r] != [] && Last(ch[r]) in heap && !Tombstone(heap[Last(ch[r])].header)
        && heap[Last(ch[r])].record != []
      then Some(heap[Last(ch[r])].record + [Rid(r)]) else None
  {
    if r in ch { AloneSeesLast(heap, r, ch[r], tx); }
  }

  function Records(heap: Heap, rs: seq<RID>): seq<Record>
    requires forall i :: 0 <= i < |rs| ==> rs[i] in heap
  {
    if rs == [] then [] else Records(heap, rs[..|rs| - 1]) + [heap[Last(rs)].record]
  }

  lemma {:induction false} RecordsSplit(heap: Heap, a: seq<RID>, b: seq<RID>)
    requires forall i :: 0 <= i < |a| ==> a[i] in heap
    requires forall i :: 0 <= i < |b| ==> b[i] in heap
    ensures Records(heap, a + b) == Records(heap, a) + Records(heap, b)
  {
    if b == [] {
      assert a + b == a;
    } else {
      RecordsSplit(heap, a, b[..|b| - 1]);
      assert (a + b)[..|a + b| - 1] == a + b[..|b| - 1];
    }
  }

  /** The records at the same slots in another order. */
  lemma {:induction false} RecordsPermute(heap: Heap, a: seq<RID>, b: seq<RID>)
    requires multiset(a) == multiset(b)
    requires forall i :: 0 <= i < |a| ==> a[i] in heap
    requires forall i :: 0 <= i < |b| ==> b[i] in heap
    ensures multiset(Records(heap, a)) == multiset(Records(heap, b))
  {
    if a == [] {
      EmptyBag(b);
    } else {
      var j := TakeOut(a, |a| - 1, b);
      assert a[..|a| - 1] + a[|a|..] == a[..|a| - 1];
      RecordsPermute(heap, a[..|a| - 1], b[..j] + b[j + 1..]);
      RecordsMoved(heap, b[..j], b[j], b[j + 1..]);
    }
  }

  lemma RecordsMoved(heap: Heap, front: seq<RID>, r: RID, back: seq<RID>)
    requires r in heap
    requires forall i :: 0 <= i < |front| ==> front[i] in heap
    requires forall i :: 0 <= i < |back| ==> back[i] in heap
    ensures multiset(Records(heap, front + ([r] + back))) == multiset(Records(heap, front + back)) +
      multiset{heap[r].record}
  {
    hide Records;
    var tail := [r] + back;
    assert forall i :: 0 <= i < |tail| ==> tail[i] in heap;
    RecordsOne(heap, r);
    RecordsSplit(heap, front, tail);
    RecordsSplit(heap, [r], back);
    RecordsSplit(heap, front, back);
    Insert(Records(heap, front), heap[r].record, Records(heap, back));
  }

  lemma RecordsOne(heap: Heap, r: RID)
    requires r in heap
    ensures Records(heap, [r]) == [heap[r].record]
  {
    var none: seq<RID> := [];
    assert [r][..0] == none;
  }

  /** The rows without the RID that the scan appends. */
  function Plain(rows: seq<Record>): (plain: seq<Record>)
    ensures |plain| == |rows|
  {
    if rows == [] then []
    else
      var row := rows[|rows| - 1];
      Plain(rows[..|rows| - 1]) + [if row == [] then [] else row[..|row| - 1]]
  }

  /** The last versions of the tuples that a scan lists. */
  ghost function Lasts(ch: Chains, at: seq<RID>): (ls: seq<RID>)
    requires forall i :: 0 <= i < |at| ==> at[i] in ch && ch[at[i]] != []
    ensures |ls| == |at| && forall i :: 0 <= i < |at| ==> ls[i] == Last(ch[at[i]])
  {
    seq(|at|, i requires 0 <= i < |at| => Last(ch[at[i]]))
  }

  /** The rows that a lone transaction lists are the records of the last versions. */
  lemma {:induction false} ListedRecords(heap: Heap, ch: Chains, tx: TxID, at: seq<RID>, rows: seq<Record>)
    requires Chained(heap, ch) && |at| == |rows|
    requires forall i :: 0 <= i < |at| ==> RowAt(heap, ch, tx, {tx}, at[i]) == Some(rows[i])
    ensures forall i :: 0 <= i < |at| ==> at[i] in ch && ch[at[i]] != [] && Last(ch[at[i]]) in heap
    ensures Plain(rows) == Records(heap, Lasts(ch, at))
  {
    forall i | 0 <= i < |at| ensures at[i] in ch && ch[at[i]] != [] && Last(ch[at[i]]) in heap
      ensures rows[i] == heap[Last(ch[at[i]])].record + [Rid(at[i])]
    {
      RowAlone(heap, ch, tx, at[i]);
    }
    ListedPlain(heap, ch, at, rows);
  }

  lemma {:induction false} ListedPlain(heap: Heap, ch: Chains, at: seq<RID>, rows: seq<Record>)
    requires |at| == |rows|
    requires forall i :: 0 <= i < |at| ==> at[i] in ch && ch[at[i]] != [] && Last(ch[at[i]]) in heap
    requires forall i :: 0 <= i < |at| ==> rows[i] == heap[Last(ch[at[i]])].record + [Rid(at[i])]
    ensures Plain(rows) == Records(heap, Lasts(ch, at))
  {
    if at != [] {
      var n := |at| - 1;
      ListedPlain(heap, ch, at[..n], rows[..n]);
      assert Lasts(ch, at)[..n] == Lasts(ch, at[..n]);
      assert rows[n][..|rows[n]| - 1] == heap[Last(ch[at[n]])].record;
    }
  }

  /** What a scan lists at `f` is the surviving version of that tuple. */
  lemma ListedSurvives(heap: Heap, ch: Chains, tx: TxID, f: RID)
    requires Chained(heap, ch) && f in ch && ch[f] != [] && RowAt(heap, ch, tx, {tx}, f).Some?
    ensures var r := Last(ch[f]);
      Survives(heap, ch, r) && r in heap && heap[r].record != [] && heap[r].header.first == f
  {
    assert IsChain(heap, f, ch[f]);
    hide IsChain, Chained;
    RowAlone(heap, ch, tx, f);
  }

  /** A surviving version with a record is listed at the first RID of its tuple. */
  lemma SurvivorListed(heap: Heap, ch: Chains, tx: TxID, r: RID)
    requires Chained(heap, ch) && Survives(heap, ch, r) && heap[r].record != []
    ensures var f := heap[r].header.first;
      f in ch && ch[f] != [] && Last(ch[f]) == r && f in heap && f.Proper() && RowAt(heap, ch, tx, {tx}, f).Some?
  {
    var f := heap[r].header.first;
    assert IsChain(heap, f, ch[f]) && ch[f][0] == f;
    hide IsChain, Chained;
    RowAlone(heap, ch, tx, f);
  }

  /** Which last versions a scan lists. */
  lemma ListedLasts(heap: Heap, ch: Chains, tx: TxID, total: int, at: seq<RID>, rows: seq<Record>)
    requires Chained(heap, ch) && Lists(heap, ch, tx, {tx}, total, at, rows)
    requires forall r :: r in heap ==> r.pageNum < total
    requires forall i :: 0 <= i < |at| ==> at[i] in ch && ch[at[i]] != []
    ensures forall r :: r in Lasts(ch, at) <==> Survives(heap, ch, r) && r in heap && heap[r].record != []
    ensures Distinct(Lasts(ch, at))
  {
    hide Chained, RowAt, Survives, Lists;
    ListsFacts(heap, ch, tx, total, at, rows);
    var ls := Lasts(ch, at);
    forall r | Survives(heap, ch, r) && r in heap && heap[r].record != [] ensures r in ls {
      SurvivorListed(heap, ch, tx, r);
      var i :| 0 <= i < |at| && at[i] == heap[r].header.first;
      assert ls[i] == r;
    }
    forall i | 0 <= i < |at|
      ensures Survives(heap, ch, ls[i]) && ls[i] in heap
      ensures heap[ls[i]].record != [] && heap[ls[i]].header.first == at[i]
    {
      ListedSurvives(heap, ch, tx, at[i]);
    }
  }

  lemma ListsFacts(heap: Heap, ch: Chains, tx: TxID, total: int, at: seq<RID>, rows: seq<Record>)
    requires Lists(heap, ch, tx, {tx}, total, at, rows)
    ensures forall i :: 0 <= i < |at| ==> RowAt(heap, ch, tx, {tx}, at[i]).Some?
    ensures forall f: RID :: f.Proper() && f.pageNum < total && RowAt(heap, ch, tx, {tx}, f).Some? ==> f in at
    ensures forall i, j :: 0 <= i < j < |at| ==> at[i] != at[j]
  {
  }

  /**
   * What `full_vacuum` is for: a transaction that runs alone lists the same multiset of records before and
   * after it. Only the RIDs behind the records change.
   */
  lemma ScanUnchanged(heap: Heap, ch: Chains, tx: TxID, total: int, at: seq<RID>, rows: seq<Record>,
                      total': int, at': seq<RID>, rows': seq<Record>)
    requires Chained(heap, ch) && forall r :: r in heap ==> r.pageNum < total
    requires Lists(heap, ch, tx, {tx}, total, at, rows)
    requires forall r :: r in Compact(heap, ch) ==> r.pageNum < total'
    requires Lists(Compact(heap, ch), CompactChains(heap, ch), tx, {tx}, total', at', rows')
    ensures multiset(Plain(rows)) == multiset(Plain(rows'))
  {
    hide *;
    var heap', ch' := Compact(heap, ch), CompactChains(heap, ch);
    CompactIsChained(heap, ch);
    ListsLong(heap, ch, tx, total, at, rows);
    ListsLong(heap', ch', tx, total', at', rows');
    ListedRecords(heap, ch, tx, at, rows);
    ListedRecords(heap', ch', tx, at', rows');
    ListedLasts(heap, ch, tx, total, at, rows);
    ListedLasts(heap', ch', tx, total', at', rows');
    CompactSurvivors(heap, ch);
    LoneLasts(heap, ch, at');
    SameMembers(Lasts(ch, at), at');
    RecordsPermute(heap, Lasts(ch, at), at');
    SameRecords(heap, heap', at');
  }

  lemma LoneLasts(heap: Heap, ch: Chains, at: seq<RID>)
    requires forall i :: 0 <= i < |at| ==> at[i] in CompactChains(heap, ch)
    ensures forall i :: 0 <= i < |at| ==> CompactChains(heap, ch)[at[i]] == [at[i]] && at[i] in Compact(heap, ch)
    ensures forall i :: 0 <= i < |at| ==> at[i] in heap && Compact(heap, ch)[at[i]].record == heap[at[i]].record
    ensures Lasts(CompactChains(heap, ch), at) == at
  {
  }

  lemma ListsLong(heap: Heap, ch: Chains, tx: TxID, total: int, at: seq<RID>, rows: seq<Record>)
    requires Lists(heap, ch, tx, {tx}, total, at, rows)
    ensures |at| == |rows| && forall i :: 0 <= i < |at| ==> RowAt(heap, ch, tx, {tx}, at[i]) == Some(rows[i])
  {
  }

  /** Compaction changes nothing the second time. */
  lemma CompactSurvivors(heap: Heap, ch: Chains)
    requires Chained(heap, ch)
    ensures forall r :: Survives(Compact(heap, ch), CompactChains(heap, ch), r) <==> Survives(heap, ch, r)
    ensures forall r :: Survives(heap, ch, r) ==>
      r in heap && r in Compact(heap, ch) && Compact(heap, ch)[r].record == heap[r].record
    ensures Compact(Compact(heap, ch), CompactChains(heap, ch)) == Compact(heap, ch)
  {
    var heap', ch' := Compact(heap, ch), CompactChains(heap, ch);
    hide Chained, Compact, CompactChains, Survives, Lone;
    forall r
      ensures Survives(heap', ch', r) <==> Survives(heap, ch, r)
      ensures r in heap' <==> Survives(heap, ch, r)
      ensures r in heap' ==>
        r in heap && heap'[r] == Lone(heap, r) == Lone(heap', r) && heap'[r].record == heap[r].record
    {
      SurvivorIsLone(heap, ch, r);
    }
    CompactAll(heap', ch');
  }

  lemma SurvivorIsLone(heap: Heap, ch: Chains, r: RID)
    ensures var heap', ch' := Compact(heap, ch), CompactChains(heap, ch);
      && (Survives(heap', ch', r) <==> Survives(heap, ch, r)) && (r in heap' <==> Survives(heap, ch, r))
      && (r in heap' ==> r in heap && heap'[r] == Lone(heap, r) == Lone(heap', r) && heap'[r].record == heap[r].record)
  {
    if Survives(heap, ch, r) { assert Compact(heap, ch)[r] == Lone(heap, r) && CompactChains(heap, ch)[r] == [r]; }
  }

  lemma CompactAll(heap: Heap, ch: Chains)
    requires forall r :: r in heap ==> Survives(heap, ch, r) && heap[r] == Lone(heap, r)
    ensures Compact(heap, ch) == heap
  {
    hide Survives, Lone;
    assert Compact(heap, ch).Keys == heap.Keys;
  }

  lemma {:induction false} SameRecords(heap: Heap, heap': Heap, rs: seq<RID>)
    requires forall i :: 0 <= i < |rs| ==> rs[i] in heap && rs[i] in heap' && heap'[rs[i]].record == heap[rs[i]].record
    ensures Records(heap', rs) == Records(heap, rs)
  {
    if rs != [] { SameRecords(heap, heap', rs[..|rs| - 1]); }
  }
}
