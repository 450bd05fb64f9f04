/** Version chains of the heap and READ COMMITTED visibility over them. */
module Versions {
  import opened Model

  datatype Header = Header(tMin: TxID, tMax: TxID, next: RID, first: RID)

  datatype Version = Version(header: Header, record: Record)

  type Heap = map<RID, Version>

  type Chains = map<RID, seq<RID>>

  /** The header test of the READ COMMITTED branch; `active` are the transactions in state ACTIVE. */
  predicate IsVisible(h: Header, tx: TxID, active: set<TxID>) {
    if h.tMin in active then
      if h.tMin == tx then h.tMax == 0 else false
    else if h.tMax == 0 then
      true
    else if h.tMax in active then
      h.tMax != tx
    else
      false
  }

  /** One turn of the loop of `read`: stop with a version, stop with none, or follow `next`. */
  datatype Decision = Found | Nothing | Hop(next: RID)

  function Decide(h: Header, tx: TxID, active: set<TxID>): Decision {
    if IsVisible(h, tx, active) then Found
    else if h.next == DELETED || h.tMax == 0 then Nothing
    else Hop(h.next)
  }

  function NewHeader(tx: TxID, rid: RID, first: RID): Header {
    Header(tx, 0, rid, first)
  }

  /** Header of `r` after a newer version was written by `tx` at `newer`. */
  function Superseded(h: Header, tx: TxID, newer: RID): Header {
    h.(tMax := tx, next := newer)
  }

  function LinkVersion(heap: Heap, last: RID, tx: TxID, newer: RID): Heap
    requires last in heap
  {
    heap[last := heap[last].(header := Superseded(heap[last].header, tx, newer))]
  }

  function Last(c: seq<RID>): RID
    requires |c| > 0
  {
    c[|c| - 1]
  }

  // ---------------------------------------------------------------- chains

  /** The end of a chain: a live version points at itself, a tombstone at (-1, -1). */
  ghost predicate Tombstone(h: Header) {
    h.tMax != 0 && h.next == DELETED
  }

  ghost predicate IsChain(heap: Heap, f: RID, c: seq<RID>) {
    && |c| > 0 && c[0] == f
    && (forall i :: 0 <= i < |c| ==> c[i] in heap && heap[c[i]].header.first == f && c[i].Proper())
    && (forall i, j :: 0 <= i < j < |c| ==> c[i] != c[j])
    && (forall i :: 0 <= i < |c| - 1 ==> Linked(heap, c[i], c[i + 1]))
    && Ends(heap, Last(c))
  }

  ghost predicate Linked(heap: Heap, older: RID, newer: RID)
    requires older in heap && newer in heap
  {
    var h := heap[older].header;
    h.next == newer && h.tMax != 0 && h.tMax == heap[newer].header.tMin
  }

  ghost predicate Ends(heap: Heap, r: RID)
    requires r in heap
  {
    var h := heap[r].header;
    (h.tMax == 0 && h.next == r) || Tombstone(h)
  }

  /** Committed writers first, then versions of one active transaction. */
  ghost predicate OneActiveWriter(heap: Heap, active: set<TxID>, c: seq<RID>)
    requires forall i :: 0 <= i < |c| ==> c[i] in heap
  {
    && (forall i, j :: 0 <= i < j < |c| && heap[c[i]].header.tMin in active ==>
          heap[c[j]].header.tMin == heap[c[i]].header.tMin)
    && (|c| > 0 && Tombstone(heap[Last(c)].header) ==>
          forall i :: 0 <= i < |c| && heap[c[i]].header.tMin in active ==>
            heap[Last(c)].header.tMax == heap[c[i]].header.tMin)
  }

  // ---------------------------------------------------------------- what a reader should see

  /** Writers whose effects `tx` must see: itself and everybody that is no longer active. */
  predicate Trusted(writer: TxID, tx: TxID, active: set<TxID>) {
    writer == tx || writer !in active
  }

  /** Length of the part of the chain that ends in its newest trusted version. */
  ghost function TrustedLength(heap: Heap, c: seq<RID>, tx: TxID, active: set<TxID>): nat
    requires forall i :: 0 <= i < |c| ==> c[i] in heap
  {
    if c == [] then 0
    else if Trusted(heap[Last(c)].header.tMin, tx, active) then |c|
    else TrustedLength(heap, c[..|c| - 1], tx, active)
  }

  /**
   * The version `tx` must read: the newest one written by itself or by a transaction that is no
   * longer active, unless such a transaction deleted the tuple.
   */
  ghost function Current(heap: Heap, c: seq<RID>, tx: TxID, active: set<TxID>): Option<RID>
    requires forall i :: 0 <= i < |c| ==> c[i] in heap
  {
    var n := TrustedLength(heap, c, tx, active);
    if n == 0 || n > |c| then None
    else if n == |c| && Tombstone(heap[Last(c)].header) && Trusted(heap[Last(c)].header.tMax, tx, active) then None
    else Some(c[n - 1])
  }

  lemma {:induction false} TrustedLengthIsNewest(heap: Heap, c: seq<RID>, tx: TxID, active: set<TxID>)
    requires forall i :: 0 <= i < |c| ==> c[i] in heap
    ensures var n := TrustedLength(heap, c, tx, active);
      && n <= |c|
      && (n > 0 ==> Trusted(heap[c[n - 1]].header.tMin, tx, active))
      && (forall i :: n <= i < |c| ==> !Trusted(heap[c[i]].header.tMin, tx, active))
  {
    if c != [] && !Trusted(heap[Last(c)].header.tMin, tx, active) {
      TrustedLengthIsNewest(heap, c[..|c| - 1], tx, active);
    }
  }

  /** Visibility picks the current version and nothing else: at most one version of a chain is visible. */
  lemma VisibleIffCurrent(heap: Heap, f: RID, c: seq<RID>, tx: TxID, active: set<TxID>, i: nat)
    requires IsChain(heap, f, c) && OneActiveWriter(heap, active, c)
    requires tx in active && 0 !in active
    requires i < |c|
    ensures IsVisible(heap[c[i]].header, tx, active) <==> Current(heap, c, tx, active) == Some(c[i])
  {
    TrustedLengthIsNewest(heap, c, tx, active);
    var n := TrustedLength(heap, c, tx, active);
    var h := heap[c[i]].header;
    if i < |c| - 1 {
      assert Linked(heap, c[i], c[i + 1]);
      // below the newest trusted version every version is trusted
      assert i + 1 < n ==> Trusted(heap[c[i + 1]].header.tMin, tx, active);
    } else {
      assert Ends(heap, c[i]);
    }
  }
}
