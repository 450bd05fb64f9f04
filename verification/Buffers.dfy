/** The buffer pool over the files: a cache that nobody notices. */
module Buffers {
  import opened Model
  import opened Bytes
  import opened Pages
  import opened HeapFilePages
  import opened Frames

  // ---------------------------------------------------------------- files

  /** The contents of the open files, page by page. */
  type Files = map<int, seq<seq<byte>>>

  /** What a read of a page sees: zeros behind the end of the file. */
  function DiskPage(files: Files, id: PageId): seq<byte> {
    if id.fileId in files && 0 <= id.pageNumber < |files[id.fileId]| then files[id.fileId][id.pageNumber]
      else ZeroBytes()
  }

  ghost predicate WholePages(files: Files) {
    forall f, n :: f in files && 0 <= n < |files[f]| ==> |files[f][n]| == PAGE_SIZE
  }

  function Zeros(n: nat): (s: seq<seq<byte>>)
    ensures |s| == n && forall i :: 0 <= i < n ==> s[i] == ZeroBytes()
  {
    if n == 0 then [] else Zeros(n - 1) + [ZeroBytes()]
  }

  /** ftruncate to at least `n` pages */
  function Extended(file: seq<seq<byte>>, n: int): seq<seq<byte>> {
    if |file| >= n then file else file + Zeros(n - |file|)
  }

  /** Page offsets are computed in 32-bit arithmetic. */
  function Wrap32(n: int): int {
    (n + TWO31) % (2 * TWO31) - TWO31
  }

  function Offset(pageNumber: int): int {
    Wrap32(pageNumber * PAGE_SIZE)
  }

  const MAX_PAGES := 0x8_0000

  /** The offset is right exactly for pages below 2^19. */
  lemma OffsetExact(pageNumber: nat)
    ensures Offset(pageNumber) == pageNumber * PAGE_SIZE <==> pageNumber < MAX_PAGES
  {
  }

  class FileManager {
    var files: Files

    ghost predicate Valid()
      reads this
    {
      WholePages(files)
    }

    method CountPages(fileId: int) returns (n: nat)
      requires fileId in files
      ensures n == |files[fileId]|
    {
      return |files[fileId]|;
    }

    /** A page behind the end of the file comes as zeros and makes the file longer. */
    method ReadPage(id: PageId, page: Page)
      requires Valid() && page.Valid() && id.fileId in files && 0 <= id.pageNumber < MAX_PAGES
      modifies this, page.bytes
      ensures Valid() && files == old(files)[id.fileId := Extended(old(files)[id.fileId], id.pageNumber + 1)]
      ensures page.bytes[..] == DiskPage(old(files), id)
    {
      var file := files[id.fileId];
      if |file| <= id.pageNumber {
        Fill(page.bytes, ZeroBytes());
        files := files[id.fileId := file + Zeros(id.pageNumber + 1 - |file|)];
      } else {
        Fill(page.bytes, file[id.pageNumber]);
      }
    }

    static method Fill(a: array<byte>, s: seq<byte>)
      requires a.Length == |s|
      modifies a
      ensures a[..] == s
    {
      forall i | 0 <= i < |s| {
        a[i] := s[i];
      }
    }

    /** The bytes of the frame are written at the place of its page. */
    method Flush(page: Page)
      requires Valid() && page.Valid() && page.pageId.Some? && page.pageId.value.fileId in files
      requires 0 <= page.pageId.value.pageNumber < MAX_PAGES
      modifies this, page`dirty
      ensures Valid() && !page.dirty
      ensures files == Written(old(files), page.pageId.value, page.bytes[..])
    {
      files := Written(files, page.pageId.value, page.bytes[..]);
      page.dirty := false;
    }

    /** Cuts the file, or extends it by zeros. */
    method TruncateFile(fileId: int, n: nat)
      requires Valid() && fileId in files
      modifies this
      ensures Valid() && files == old(files)[fileId := Extended(old(files)[fileId], n)[..n]]
    {
      files := files[fileId := Extended(files[fileId], n)[..n]];
    }
  }

  /** A write at a page of a file; a gap before it reads as zeros. */
  function Written(files: Files, id: PageId, s: seq<byte>): Files
    requires id.fileId in files && 0 <= id.pageNumber
  {
    files[id.fileId := Extended(files[id.fileId], id.pageNumber + 1)[id.pageNumber := s]]
  }

  lemma WrittenPages(files: Files, id: PageId, s: seq<byte>)
    requires id.fileId in files && 0 <= id.pageNumber
    ensures forall x :: DiskPage(Written(files, id, s), x) == if x == id then s else DiskPage(files, x)
  {
  }

  lemma ExtendedPages(files: Files, fileId: int, n: int)
    requires fileId in files
    ensures forall x :: DiskPage(files[fileId := Extended(files[fileId], n)], x) == DiskPage(files, x)
  {
  }

  // ---------------------------------------------------------------- the pool as a value

  datatype Frame = Frame(pageId: Option<PageId>, pins: nat, secondChance: bool, dirty: bool, bytes: seq<byte>)

  datatype Pool = Pool(frames: seq<Frame>, pageMap: map<PageId, nat>, files: Files)

  predicate Known(files: Files, id: PageId) {
    id.fileId in files && 0 <= id.pageNumber < MAX_PAGES
  }

  /** `pageMap` is the inverse of the assignment of frames. */
  ghost predicate Inverse(p: Pool) {
    && (forall i :: 0 <= i < |p.frames| && p.frames[i].pageId.Some? ==>
          p.frames[i].pageId.value in p.pageMap && p.pageMap[p.frames[i].pageId.value] == i)
    && (forall id :: id in p.pageMap ==> p.pageMap[id] < |p.frames| && p.frames[p.pageMap[id]].pageId == Some(id))
  }

  /** A frame has a page of a file, and what the file holds unless it is dirty; an unassigned frame is idle. */
  ghost predicate FrameOk(f: Frame, files: Files) {
    match f.pageId
    case None => !f.dirty && f.pins == 0 && !f.secondChance
    case Some(id) =>
      Known(files, id) && id.pageNumber < |files[id.fileId]| && (!f.dirty ==> f.bytes == DiskPage(files, id))
  }

  /** Files stay as long as they are, but for one that must reach to the page. */
  ghost predicate Reaches(files: Files, files': Files, id: PageId) {
    && files'.Keys == files.Keys
    && forall f :: f in files ==>
         |files'[f]| == if f == id.fileId && |files[f]| <= id.pageNumber then id.pageNumber + 1 else |files[f]|
  }

  ghost predicate Coherent(p: Pool) {
    Inverse(p) && forall i :: 0 <= i < |p.frames| ==> FrameOk(p.frames[i], p.files)
  }

  /** The plain map from pages to bytes that the pool stands for. */
  function Content(p: Pool, id: PageId): seq<byte> {
    if id in p.pageMap && p.pageMap[id] < |p.frames| then p.frames[p.pageMap[id]].bytes else DiskPage(p.files, id)
  }

  ghost predicate SameContent(p: Pool, p': Pool) {
    forall id :: Content(p', id) == Content(p, id)
  }

  /** Frames in use keep their page and their bytes. */
  ghost predicate PinnedKept(p: Pool, p': Pool) {
    && |p'.frames| == |p.frames|
    && forall i :: 0 <= i < |p.frames| && p.frames[i].pins > 0 ==>
         p'.frames[i].pageId == p.frames[i].pageId && p'.frames[i].bytes == p.frames[i].bytes
           && p'.frames[i].pins >= p.frames[i].pins
  }

  /** Only second chances of unpinned frames were taken. */
  ghost predicate ChancesTaken(p: Pool, p': Pool) {
    && |p'.frames| == |p.frames| && p'.pageMap == p.pageMap && p'.files == p.files
    && forall i :: 0 <= i < |p.frames| ==>
         p'.frames[i] == p.frames[i] || (p.frames[i].pins == 0 && p'.frames[i] == p.frames[i].(secondChance := false))
  }

  /** A frame that the clock takes at once. */
  predicate Ready(f: Frame) {
    f.pins == 0 && !f.secondChance
  }

  ghost predicate AnyReady(p: Pool) {
    exists i :: 0 <= i < |p.frames| && Ready(p.frames[i])
  }

  /** Steps of the clock from `a` to `b`. */
  function Distance(a: nat, b: nat, n: nat): nat
    requires a < n && b < n
  {
    if a <= b then b - a else n - a + b
  }

  lemma DistanceSteps(a: nat, b: nat, n: nat)
    requires a < n && b < n
    ensures var d := Distance(a, b, n); d < n && b == if a + d < n then a + d else a + d - n
  {
  }

  /** The first frame from the clock on that is ready; if there is none, the first that is not pinned. */
  ghost predicate Chosen(p: Pool, clock: nat, c: nat)
    requires clock < |p.frames| && c < |p.frames|
  {
    if AnyReady(p) then
      Ready(p.frames[c]) && forall i :: 0 <= i < |p.frames| && Ready(p.frames[i]) ==>
        Distance(clock, c, |p.frames|) <= Distance(clock, i, |p.frames|)
    else
      p.frames[c].pins == 0 && forall i :: 0 <= i < |p.frames| && p.frames[i].pins == 0 ==>
        Distance(clock, c, |p.frames|) <= Distance(clock, i, |p.frames|)
  }

  /** What is left of a frame that the clock passed, if it did. */
  function Passed(f: Frame, passed: bool): Frame {
    if passed && f.pins == 0 then f.(secondChance := false) else f
  }

  /** The clock passes frame `i` before it stops at `c`: in its first turn, or because it makes a second one. */
  ghost predicate OnTheWay(p: Pool, clock: nat, c: nat, i: nat)
    requires clock < |p.frames| && c < |p.frames| && i < |p.frames|
  {
    !AnyReady(p) || Distance(clock, i, |p.frames|) < Distance(clock, c, |p.frames|)
  }

  /** The unpinned frames that the clock passed on its way to `c` lost their second chance, and nothing else changed. */
  ghost predicate ChancesGone(p: Pool, p': Pool, clock: nat, c: nat)
    requires clock < |p.frames| && c < |p.frames|
  {
    && |p'.frames| == |p.frames| && p'.pageMap == p.pageMap && p'.files == p.files
    && forall i :: 0 <= i < |p.frames| ==>
         p'.frames[i] == Passed(p.frames[i], OnTheWay(p, clock, c, i))
  }

  /** The clock has come from `clock` to `now`, in its second turn if `lap`, and has found nothing. */
  ghost predicate Turning(p: Pool, p': Pool, clock: nat, now: nat, lap: bool)
    requires clock < |p.frames| && now < |p.frames|
  {
    var n := |p.frames|;
    && |p'.frames| == n && p'.pageMap == p.pageMap && p'.files == p.files
    && (forall i :: 0 <= i < n ==>
          p'.frames[i] == Passed(p.frames[i], lap || Distance(clock, i, n) < Distance(clock, now, n)))
    && (forall i :: 0 <= i < n && (lap || Distance(clock, i, n) < Distance(clock, now, n)) ==> !Ready(p.frames[i]))
    && (lap ==> forall i :: 0 <= i < n && Distance(clock, i, n) < Distance(clock, now, n) ==> p.frames[i].pins != 0)
  }

  lemma TurningBegins(p: Pool, clock: nat)
    requires clock < |p.frames|
    ensures Turning(p, p, clock, clock, false)
  {
  }

  function AfterClock(now: nat, n: nat): (k: nat)
    requires now < n
    ensures k < n
  {
    if now + 1 < n then now + 1 else 0
  }

  /** One step of the clock over a frame that is not ready. */
  lemma TurningNext(p: Pool, p': Pool, clock: nat, now: nat, lap: bool, unpinned: nat)
    requires clock < |p.frames| && now < |p.frames| && Turning(p, p', clock, now, lap)
    requires unpinned < |p.frames| && p.frames[unpinned].pins == 0 && !Ready(p'.frames[now])
    ensures var next, f := AfterClock(now, |p.frames|), p'.frames[now];
      && (lap ==> next != clock)
      && Distance(clock, next, |p.frames|) == (if next == clock then 0 else Distance(clock, now, |p.frames|) + 1)
      && Turning(p, p'.(frames := p'.frames[now := if f.pins == 0 then f.(secondChance := false) else f]), clock, next,
                 lap || next == clock)
  {
    var n := |p.frames|;
    NextDistance(clock, now, n);
    forall i | 0 <= i < n ensures Distance(clock, i, n) == Distance(clock, now, n) ==> i == now {}
    if lap {
      assert p'.frames[now].pins != 0 && p.frames[now].pins != 0;
      assert Distance(clock, unpinned, n) > Distance(clock, now, n);
    }
    hide Distance;
  }

  lemma NextDistance(clock: nat, now: nat, n: nat)
    requires clock < n && now < n
    ensures var next := AfterClock(now, n);
      Distance(clock, next, n) == if next == clock then 0 else Distance(clock, now, n) + 1
    ensures AfterClock(now, n) == clock <==> Distance(clock, now, n) == n - 1
    ensures forall i :: 0 <= i < n ==> Distance(clock, i, n) < n
  {
  }

  lemma FromItself(clock: nat, n: nat)
    requires clock < n
    ensures Distance(clock, clock, n) == 0
  {
  }

  lemma LastStep(clock: nat, now: nat, n: nat)
    requires clock < n && now < n
    ensures AfterClock(now, n) == clock ==> Distance(clock, now, n) == n - 1
  {
  }

  /** Where the clock stops is the chosen frame. */
  lemma TurningEnds(p: Pool, p': Pool, clock: nat, now: nat, lap: bool)
    requires clock < |p.frames| && now < |p.frames| && Turning(p, p', clock, now, lap) && Ready(p'.frames[now])
    ensures Chosen(p, clock, now) && ChancesGone(p, p', clock, now) && ChancesTaken(p, p')
  {
    hide Distance;
    if lap {
      assert !AnyReady(p);
    } else {
      assert Ready(p.frames[now]) && AnyReady(p);
    }
  }

  lemma ChancesAreNothing(p: Pool, p': Pool)
    requires Coherent(p) && ChancesTaken(p, p')
    ensures Coherent(p') && SameContent(p, p') && PinnedKept(p, p')
  {
  }

  /** The frame `c` is written back, if it must be, and leaves the map. */
  function Evicted(p: Pool, c: nat): Pool
    requires c < |p.frames|
    requires p.frames[c].pageId.Some? ==>
      p.frames[c].pageId.value.fileId in p.files && 0 <= p.frames[c].pageId.value.pageNumber
  {
    var f := p.frames[c];
    match f.pageId
    case None => p
    case Some(id) =>
      Pool(p.frames[c := Frame(None, 0, false, false, f.bytes)], p.pageMap - {id},
           if f.dirty then Written(p.files, id, f.bytes) else p.files)
  }

  /** Nothing of the evicted page is lost. */
  lemma EvictionIsSafe(p: Pool, c: nat)
    requires Coherent(p) && c < |p.frames| && p.frames[c].pins == 0 && !p.frames[c].secondChance
    ensures FrameOk(p.frames[c], p.files)
    ensures Coherent(Evicted(p, c)) && SameContent(p, Evicted(p, c)) && PinnedKept(p, Evicted(p, c))
    ensures Evicted(p, c).frames[c].pageId == None
  {
    assert FrameOk(p.frames[c], p.files);
    if p.frames[c].pageId.Some? {
      EvictionKeepsContent(p, c);
      EvictionKeepsInverse(p, c);
      forall i | 0 <= i < |p.frames| && i != c ensures FrameOk(p.frames[i], Evicted(p, c).files) {
        EvictionKeepsFrame(p, c, i);
      }
      hide Inverse, FrameOk, SameContent, Written;
      assert forall i :: 0 <= i < |p.frames| ==> FrameOk(Evicted(p, c).frames[i], Evicted(p, c).files) by {
        assert FrameOk(Evicted(p, c).frames[c], Evicted(p, c).files) by {
          IdleFrame(p.frames[c].bytes, Evicted(p, c).files);
        }
      }
    } else {
      assert SameContent(p, p);
    }
  }

  lemma IdleFrame(bytes: seq<byte>, files: Files)
    ensures FrameOk(Frame(None, 0, false, false, bytes), files)
  {
  }

  lemma EvictionKeepsInverse(p: Pool, c: nat)
    requires Coherent(p) && c < |p.frames| && FrameOk(p.frames[c], p.files) && p.frames[c].pageId.Some?
    ensures Inverse(Evicted(p, c))
  {
    hide Written, FrameOk;
  }

  lemma EvictionKeepsFrame(p: Pool, c: nat, i: nat)
    requires Coherent(p) && c < |p.frames| && FrameOk(p.frames[c], p.files)
    requires p.frames[c].pageId.Some? && i < |p.frames| && i != c
    ensures FrameOk(p.frames[i], Evicted(p, c).files)
  {
    EvictionKeepsDisk(p, c);
    assert FrameOk(p.frames[i], p.files);
    assert p.frames[i].pageId.Some? ==> p.frames[i].pageId != p.frames[c].pageId;
    hide DiskPage;
  }

  /** The files then have for every page what they had, but for the evicted page what the frame had. */
  lemma EvictionKeepsDisk(p: Pool, c: nat)
    requires c < |p.frames| && FrameOk(p.frames[c], p.files) && p.frames[c].pageId.Some?
    ensures forall id ::
      DiskPage(Evicted(p, c).files, id) == if Some(id) == p.frames[c].pageId then p.frames[c].bytes
        else DiskPage(p.files, id)
  {
    var f := p.frames[c];
    if f.dirty { WrittenPages(p.files, f.pageId.value, f.bytes); }
    hide Written;
  }

  lemma EvictionKeepsContent(p: Pool, c: nat)
    requires Coherent(p) && c < |p.frames| && FrameOk(p.frames[c], p.files) && p.frames[c].pageId.Some?
    ensures SameContent(p, Evicted(p, c))
  {
    EvictionKeepsDisk(p, c);
    hide Written, FrameOk, DiskPage;
    forall id ensures Content(Evicted(p, c), id) == Content(p, id) {}
  }

  /** Frame `c` takes over page `id` from its file. */
  function Loaded(p: Pool, c: nat, id: PageId): Pool
    requires c < |p.frames| && id.fileId in p.files
  {
    Pool(p.frames[c := Frame(Some(id), 1, true, false, DiskPage(p.files, id))], p.pageMap[id := c],
         p.files[id.fileId := Extended(p.files[id.fileId], id.pageNumber + 1)])
  }

  lemma LoadIsSafe(p: Pool, c: nat, id: PageId)
    requires Coherent(p) && c < |p.frames| && p.frames[c].pageId == None && id !in p.pageMap && Known(p.files, id)
    ensures Coherent(Loaded(p, c, id)) && SameContent(p, Loaded(p, c, id)) && PinnedKept(p, Loaded(p, c, id))
  {
    LoadKeepsContent(p, c, id);
    LoadKeepsInverse(p, c, id);
    LoadKeepsFrames(p, c, id);
    assert FrameOk(p.frames[c], p.files);
    hide Inverse, FrameOk, SameContent, Extended, DiskPage;
  }

  lemma LoadKeepsInverse(p: Pool, c: nat, id: PageId)
    requires Inverse(p) && c < |p.frames| && p.frames[c].pageId == None && id !in p.pageMap && Known(p.files, id)
    ensures Inverse(Loaded(p, c, id))
  {
    hide Extended, DiskPage;
  }

  lemma LoadKeepsFrames(p: Pool, c: nat, id: PageId)
    requires c < |p.frames| && Known(p.files, id) && forall i :: 0 <= i < |p.frames| ==> FrameOk(p.frames[i], p.files)
    ensures forall i :: 0 <= i < |p.frames| ==> FrameOk(Loaded(p, c, id).frames[i], Loaded(p, c, id).files)
  {
    ExtendedPages(p.files, id.fileId, id.pageNumber + 1);
    var p' := Loaded(p, c, id);
    assert |p'.files[id.fileId]| > id.pageNumber && |p'.files[id.fileId]| >= |p.files[id.fileId]|;
    hide Extended, DiskPage;
    forall i | 0 <= i < |p.frames| ensures FrameOk(p'.frames[i], p'.files) { assert FrameOk(p.frames[i], p.files); }
  }

  lemma LoadKeepsContent(p: Pool, c: nat, id: PageId)
    requires Inverse(p) && c < |p.frames| && p.frames[c].pageId == None && id !in p.pageMap && Known(p.files, id)
    ensures SameContent(p, Loaded(p, c, id))
  {
    ExtendedPages(p.files, id.fileId, id.pageNumber + 1);
    hide Extended, DiskPage;
  }

  // ---------------------------------------------------------------- the buffer manager

  ghost function Snapshot(f: Page): Frame
    reads f, f.bytes
  {
    Frame(f.pageId, f.pins, f.secondChance, f.dirty, f.bytes[..])
  }

  ghost predicate Separate(frames: seq<Page>) {
    && (forall i :: 0 <= i < |frames| ==> frames[i].Valid())
    && (forall i, j :: 0 <= i < j < |frames| ==> frames[i] != frames[j] && frames[i].bytes != frames[j].bytes)
  }

  ghost function Snapshots(frames: seq<Page>): (s: seq<Frame>)
    reads frames, set f | f in frames :: f.bytes
    ensures |s| == |frames| && forall i :: 0 <= i < |frames| ==> s[i] == Snapshot(frames[i])
  {
    seq(|frames|, i requires 0 <= i < |frames| reads frames, set f | f in frames :: f.bytes => Snapshot(frames[i]))
  }

  class BufferManager {
    const frames: seq<Page>
    const fileMgr: FileManager
    var clock: nat
    var pageMap: map<PageId, nat>

    ghost function State(): Pool
      reads this, fileMgr, frames, set f | f in frames :: f.bytes
    {
      Pool(Snapshots(frames), pageMap, fileMgr.files)
    }

    ghost predicate Valid()
      reads this, fileMgr, frames, set f | f in frames :: f.bytes
    {
      && Separate(frames) && clock < |frames| && fileMgr.Valid() && Coherent(State())
    }

    constructor (frames: seq<Page>, fileMgr: FileManager)
      requires frames != [] && Separate(frames) && fileMgr.Valid()
      requires forall i :: 0 <= i < |frames| ==>
        frames[i].pageId == None && frames[i].pins == 0 && !frames[i].secondChance && !frames[i].dirty
      ensures Valid() && this.frames == frames && this.fileMgr == fileMgr
      ensures forall id :: Content(State(), id) == DiskPage(fileMgr.files, id)
    {
      this.frames, this.fileMgr := frames, fileMgr;
      clock, pageMap := 0, map[];
    }

    method TakeChance(page: Page, ghost k: nat)
      requires Separate(frames) && k < |frames| && page == frames[k]
      modifies page`secondChance
      ensures State() ==
        old(State()).(frames := old(State()).frames[k := old(State()).frames[k].(secondChance := false)])
    {
      page.secondChance := false;
    }

    /** One turn of the probing loop. */
    method PassFrame(page: Page, ghost s: Pool, ghost start: nat, ghost lap: bool, ghost unpinned: nat)
      requires Separate(frames) && clock < |frames| && page == frames[clock] && (page.pins != 0 || page.secondChance)
      requires start < |frames| == |s.frames| && Turning(s, State(), start, clock, lap)
      requires unpinned < |frames| && s.frames[unpinned].pins == 0
      modifies this`clock, page`secondChance
      ensures clock < |frames| == |s.frames| && clock == AfterClock(old(clock), |frames|)
      ensures Turning(s, State(), start, clock, lap || clock == start)
      ensures lap ==> clock != start
      ensures Distance(start, clock, |frames|) ==
        if clock == start then 0 else Distance(start, old(clock), |frames|) + 1
    {
      hide Turning, Distance;
      ghost var before := State();
      assert !Ready(before.frames[clock]);
      TurningNext(s, before, start, clock, lap, unpinned);
      if page.pins == 0 {
        TakeChance(page, clock);
      } else {
        assert before.frames[clock := before.frames[clock]] == before.frames;
      }
      clock := clock + 1;
      clock := if clock < |frames| then clock else 0;
    }

    /**
     * The clock hand: the first frame from the clock on that is neither pinned nor has a second chance; if there
     * is none, the first that is not pinned, in the second turn. Unpinned frames on the way lose their second
     * chance. With all frames pinned the source searches for ever.
     */
    method GetUnusedPage(ghost unpinned: nat) returns (c: nat, ghost probes: nat)
      requires Valid() && unpinned < |frames| && frames[unpinned].pins == 0
      modifies this`clock, frames
      ensures Valid() && ChancesTaken(old(State()), State()) && probes <= 2 * |frames|
      ensures c < |frames| && clock == c && Chosen(old(State()), old(clock), c)
      ensures ChancesGone(old(State()), State(), old(clock), c)
      ensures frames[c].pins == 0 && !frames[c].secondChance
    {
      hide Coherent, ChancesTaken, Separate, Chosen, ChancesGone, Turning, Distance;
      ghost var s, start, lap := State(), clock, false;
      probes := 1;
      assert s.frames[unpinned].pins == 0;
      TurningBegins(s, clock);
      DistanceSteps(clock, clock, |frames|);
      FromItself(clock, |frames|);
      while frames[clock].pins != 0 || frames[clock].secondChance
        invariant Separate(frames) && clock < |frames| == |s.frames| && fileMgr.Valid()
        invariant Turning(s, State(), start, clock, lap) && Distance(start, clock, |frames|) < |frames|
        invariant probes == 1 + Distance(start, clock, |frames|) + if lap then |frames| else 0
        decreases 2 * |frames| - probes
      {
        ghost var was := clock;
        PassFrame(frames[clock], s, start, lap, unpinned);
        DistanceSteps(start, clock, |frames|);
        LastStep(start, was, |frames|);
        lap := lap || clock == start;
        probes := probes + 1;
      }
      assert Ready(State().frames[clock]);
      TurningEnds(s, State(), start, clock, lap);
      ChancesAreNothing(s, State());
      c := clock;
    }

    /**
     * A pinned frame with the page, read from its file if it is not in the buffer. Nobody can tell: the pool
     * stands for the same pages as before. Frames in use are left alone.
     */
    method GetPage(id: PageId, ghost unpinned: nat) returns (page: Page)
      requires Valid() && Known(fileMgr.files, id)
      requires id !in pageMap ==> unpinned < |frames| && frames[unpinned].pins == 0
      modifies this, fileMgr, frames, set f | f in frames :: f.bytes
      ensures Valid() && SameContent(old(State()), State()) && PinnedKept(old(State()), State())
      ensures page in frames && page.pageId == Some(id) && page.bytes[..] == Content(old(State()), id)
      ensures page.pins == (if id in old(pageMap) then old(frames[pageMap[id]].pins) + 1 else 1) && page.secondChance
      ensures id in pageMap && frames[pageMap[id]] == page && Reaches(old(fileMgr.files), fileMgr.files, id)
      ensures id in old(pageMap) ==> pageMap == old(pageMap) && OthersStay(old(State()), State(), pageMap[id])
      ensures id !in old(pageMap) ==> Taken(old(State()), State(), old(clock), pageMap[id], id)
    {
      if id in pageMap {
        CachedIsInFile(State(), id);
        page := PinPage(id);
      } else {
        page := LoadPage(id, unpinned);
      }
    }

    method PinPage(id: PageId) returns (page: Page)
      requires Valid() && id in pageMap
      modifies frames
      ensures Valid() && pageMap == old(pageMap) && page == frames[pageMap[id]]
      ensures SameContent(old(State()), State()) && PinnedKept(old(State()), State())
      ensures page.pageId == Some(id) && page.bytes[..] == Content(old(State()), id)
      ensures page.pins == old(frames[pageMap[id]].pins) + 1 && page.secondChance
      ensures OthersStay(old(State()), State(), pageMap[id])
    {
      ghost var s := State();
      page := frames[pageMap[id]];
      page.Pin();
      Pinning(s, State(), pageMap[id]);
    }

    method LoadPage(id: PageId, ghost unpinned: nat) returns (page: Page)
      requires Valid() && Known(fileMgr.files, id) && id !in pageMap
      requires unpinned < |frames| && frames[unpinned].pins == 0
      modifies this, fileMgr, frames, set f | f in frames :: f.bytes
      ensures Valid() && SameContent(old(State()), State()) && PinnedKept(old(State()), State())
      ensures page in frames && page.pageId == Some(id) && page.bytes[..] == Content(old(State()), id)
      ensures page.pins == 1 && page.secondChance
      ensures id in pageMap && frames[pageMap[id]] == page && Reaches(old(fileMgr.files), fileMgr.files, id)
      ensures Taken(old(State()), State(), old(clock), pageMap[id], id)
    {
      hide Coherent, ChancesTaken, ChancesGone, Chosen, SameContent, PinnedKept, Evicted, Loaded, Reaches, Taken;
      ghost var s := State();
      var c, _ := GetUnusedPage(unpinned);
      ReplaceIsSafe(s, State(), c, id);
      ReplaceIsTaken(s, State(), old(clock), c, id);
      page := frames[c];
      Replace(page, c, id);
    }

    /** A new page of zeros behind the last one of a file, pinned; the file is then one page longer. */
    method AppendPage(fileId: int, ghost unpinned: nat) returns (page: Page)
      requires Valid() && fileId in fileMgr.files && |fileMgr.files[fileId]| < MAX_PAGES
      requires unpinned < |frames| && frames[unpinned].pins == 0
      modifies this, fileMgr, frames, set f | f in frames :: f.bytes
      ensures Valid() && SameContent(old(State()), State()) && PinnedKept(old(State()), State())
      ensures page in frames && page.pageId == Some(PageId(fileId, |old(fileMgr.files)[fileId]|))
      ensures page.pins == 1 && page.bytes[..] == ZeroBytes()
      ensures fileId in fileMgr.files && |fileMgr.files[fileId]| == |old(fileMgr.files)[fileId]| + 1
      ensures forall f :: f in old(fileMgr.files) && f != fileId ==>
        f in fileMgr.files && |fileMgr.files[f]| == |old(fileMgr.files)[f]|
    {
      hide Coherent, SameContent, PinnedKept, Separate;
      var n := fileMgr.CountPages(fileId);
      BehindTheEnd(State(), PageId(fileId, n));
      page := GetPage(PageId(fileId, n), unpinned);
    }

    /** The page falls back to what its file holds; what was only in memory is gone. */
    method DeletePage(id: PageId)
      requires Valid() && (id in pageMap ==> frames[pageMap[id]].pins == 0)
      modifies this`pageMap, frames
      ensures Valid() && fileMgr.files == old(fileMgr.files) && PinnedKept(old(State()), State())
      ensures pageMap == old(pageMap) - {id} && clock == old(clock)
      ensures forall x :: Content(State(), x) == if x == id then DiskPage(fileMgr.files, id)
        else Content(old(State()), x)
    {
      if id in pageMap {
        ghost var s, c := State(), pageMap[id];
        var page := frames[pageMap[id]];
        Forget(page, pageMap[id], id);
        ForgetIsSafe(s, c, id);
      }
    }

    method Forget(page: Page, ghost c: nat, id: PageId)
      requires Separate(frames) && c < |frames| && page == frames[c] && page.pins == 0
      modifies this`pageMap, page
      ensures State() == Forgotten(old(State()), c, id)
    {
      page.Reset();
      pageMap := pageMap - {id};
    }

    /** Afterwards the files hold what the pool stands for. */
    method Flush()
      requires Valid() && forall i :: 0 <= i < |frames| ==> frames[i].pins == 0
      modifies fileMgr, frames
      ensures Valid() && SameContent(old(State()), State()) && pageMap == old(pageMap)
      ensures forall id :: DiskPage(fileMgr.files, id) == Content(old(State()), id)
      ensures forall i :: 0 <= i < |frames| ==> !frames[i].dirty
    {
      hide Coherent, SameContent, Flushed, Separate;
      ghost var s := State();
      FlushBegins(s);
      for i := 0 to |frames|
        invariant Separate(frames) && fileMgr.Valid() && Coherent(State())
        invariant SameContent(s, State()) && pageMap == old(pageMap)
        invariant clock == old(clock) && Clean(State(), i)
      {
        if frames[i].dirty {
          FlushIsSafe(s, State(), i);
          FlushFrame(frames[i], i);
        } else {
          CleanFrame(State(), i);
        }
      }
      CleanContent(s, State());
    }

    method FlushFrame(page: Page, ghost c: nat)
      requires Separate(frames) && c < |frames| && page == frames[c] && fileMgr.Valid()
      requires page.pageId.Some? && Known(fileMgr.files, page.pageId.value)
      modifies fileMgr, page`dirty
      ensures fileMgr.Valid() && State() == Flushed(old(State()), c)
    {
      fileMgr.Flush(page);
    }

    /** Write back, forget and reuse a frame. The asserts of `reassign` hold. */
    method Replace(page: Page, c: nat, id: PageId)
      requires Separate(frames) && c < |frames| && page == frames[c]
      requires fileMgr.Valid() && FrameOk(Snapshot(page), fileMgr.files)
      requires page.pins == 0 && !page.secondChance && Known(fileMgr.files, id)
      modifies this`pageMap, fileMgr, page, page.bytes
      ensures fileMgr.Valid() && id.fileId in Evicted(old(State()), c).files
      ensures State() == Loaded(Evicted(old(State()), c), c, id)
    {
      hide FrameOk, Evicted, Loaded;
      ghost var s := State();
      EvictedFacts(s, c, id);
      WriteBack(page, c);
      LoadedAgain(Evicted(s, c), State(), c, id);
      Reuse(page, c, id);
    }

    method Reuse(page: Page, c: nat, id: PageId)
      requires Separate(frames) && c < |frames| && page == frames[c] && fileMgr.Valid()
      requires !page.dirty && page.pins == 0 && !page.secondChance && Known(fileMgr.files, id)
      modifies this`pageMap, fileMgr, page, page.bytes
      ensures fileMgr.Valid() && State() == Loaded(old(State()), c, id)
    {
      hide Extended, DiskPage, Loaded, WholePages;
      ghost var s := State();
      page.Reassign(id);
      fileMgr.ReadPage(id, page);
      pageMap := pageMap[id := c];
      forall i | 0 <= i < |frames| && i != c ensures State().frames[i] == s.frames[i] {}
      IsLoaded(s, State(), c, id);
    }

    method WriteBack(page: Page, ghost c: nat)
      requires Separate(frames) && c < |frames| && page == frames[c] && fileMgr.Valid()
      requires page.pageId.Some? ==> Known(fileMgr.files, page.pageId.value)
      requires page.pageId == None ==> !page.dirty
      modifies this`pageMap, fileMgr, page`dirty
      ensures fileMgr.Valid() && !page.dirty && |frames| == |old(State()).frames|
      ensures forall i :: 0 <= i < |frames| && i != c ==> State().frames[i] == old(State()).frames[i]
      ensures fileMgr.files == Evicted(old(State()), c).files && pageMap == Evicted(old(State()), c).pageMap
    {
      if page.pageId.Some? { pageMap := pageMap - {page.pageId.value}; }
      if page.dirty { fileMgr.Flush(page); }
    }
  }

  lemma IsLoaded(p: Pool, p': Pool, c: nat, id: PageId)
    requires c < |p.frames| == |p'.frames| && id.fileId in p.files && p'.pageMap == p.pageMap[id := c]
    requires forall i :: 0 <= i < |p.frames| && i != c ==> p'.frames[i] == p.frames[i]
    requires p'.frames[c] == Frame(Some(id), 1, true, false, DiskPage(p.files, id))
    requires p'.files == p.files[id.fileId := Extended(p.files[id.fileId], id.pageNumber + 1)]
    ensures p' == Loaded(p, c, id)
  {
    hide DiskPage, Extended;
  }

  /** What a frame held before does not matter to a load. */
  lemma LoadedAgain(p: Pool, p': Pool, c: nat, id: PageId)
    requires c < |p.frames| == |p'.frames| && id.fileId in p.files && p'.files == p.files && p'.pageMap == p.pageMap
    requires forall i :: 0 <= i < |p.frames| && i != c ==> p'.frames[i] == p.frames[i]
    ensures Loaded(p', c, id) == Loaded(p, c, id)
  {
  }

  lemma EvictedFacts(s: Pool, c: nat, id: PageId)
    requires c < |s.frames| && FrameOk(s.frames[c], s.files) && Known(s.files, id)
    ensures s.frames[c].pageId.Some? ==> Known(s.files, s.frames[c].pageId.value)
    ensures s.frames[c].pageId == None ==> !s.frames[c].dirty
    ensures Known(Evicted(s, c).files, id) && |Evicted(s, c).frames| == |s.frames|
    ensures forall i :: 0 <= i < |s.frames| && i != c ==> Evicted(s, c).frames[i] == s.frames[i]
  {
  }

  /** Taking second chances, eviction and load together: the contents and the pinned frames stay. */
  lemma ReplaceIsSafe(s: Pool, s1: Pool, c: nat, id: PageId)
    requires Coherent(s) && ChancesTaken(s, s1) && Known(s.files, id) && id !in s.pageMap
    requires c < |s1.frames| && s1.frames[c].pins == 0 && !s1.frames[c].secondChance
    ensures FrameOk(s1.frames[c], s1.files) && Known(s1.files, id)
    ensures id.fileId in Evicted(s1, c).files && c < |Evicted(s1, c).frames|
    ensures var s3 := Loaded(Evicted(s1, c), c, id);
      && Coherent(s3) && SameContent(s, s3) && PinnedKept(s, s3) && id in s3.pageMap && s3.pageMap[id] == c
      && s3.frames[c].pageId == Some(id) && s3.frames[c].pins == 1 && s3.frames[c].secondChance
      && s3.frames[c].bytes == Content(s, id)
      && Reaches(s.files, s3.files, id)
  {
    ChancesAreNothing(s, s1);
    assert FrameOk(s1.frames[c], s1.files);
    EvictedFacts(s1, c, id);
    EvictionIsSafe(s1, c);
    ForgetsOnly(s1, c, id);
    var s2 := Evicted(s1, c);
    EvictedLengths(s1, c, id);
    hide Evicted, Coherent, ChancesTaken;
    LoadIsSafe(s2, c, id);
    assert Content(Loaded(s2, c, id), id) == Content(s2, id) == Content(s1, id) == Content(s, id);
  }

  /**
   * A page that was not cached takes over the frame that the clock chooses: its old page, if any, leaves the map,
   * and all other frames keep what they have but for the second chances that the clock took.
   */
  ghost predicate Taken(p: Pool, p': Pool, clock: nat, c: nat, id: PageId) {
    && clock < |p.frames| == |p'.frames| && c < |p.frames| && Chosen(p, clock, c)
    && p'.pageMap == (match p.frames[c].pageId case None => p.pageMap case Some(x) => p.pageMap - {x})[id := c]
    && forall i :: 0 <= i < |p.frames| && i != c ==>
         p'.frames[i] == Passed(p.frames[i], OnTheWay(p, clock, c, i))
  }

  lemma ReplaceIsTaken(s: Pool, s1: Pool, clock: nat, c: nat, id: PageId)
    requires clock < |s.frames| == |s1.frames| && c < |s.frames|
    requires Chosen(s, clock, c) && ChancesGone(s, s1, clock, c)
    requires FrameOk(s1.frames[c], s1.files) && Known(s1.files, id)
    requires id.fileId in Evicted(s1, c).files && c < |Evicted(s1, c).frames|
    ensures Taken(s, Loaded(Evicted(s1, c), c, id), clock, c, id)
  {
    hide Chosen, Distance;
    assert s1.frames[c].pageId == s.frames[c].pageId;
    EvictedFacts(s1, c, id);
  }

  /** All frames but one are as before. */
  ghost predicate OthersStay(p: Pool, p': Pool, c: nat) {
    |p'.frames| == |p.frames| && forall i :: 0 <= i < |p.frames| && i != c ==> p'.frames[i] == p.frames[i]
  }

  lemma EvictedLengths(s: Pool, c: nat, id: PageId)
    requires c < |s.frames| && FrameOk(s.frames[c], s.files) && Known(s.files, id)
    ensures Reaches(s.files, Loaded(Evicted(s, c), c, id).files, id)
  {
  }

  lemma CachedIsInFile(p: Pool, id: PageId)
    requires Coherent(p) && id in p.pageMap
    ensures Known(p.files, id) && id.pageNumber < |p.files[id.fileId]|
  {
    assert FrameOk(p.frames[p.pageMap[id]], p.files);
  }

  /** The page behind the last one of a file is not in the buffer and reads as zeros. */
  lemma BehindTheEnd(p: Pool, id: PageId)
    requires Coherent(p) && Known(p.files, id) && id.pageNumber == |p.files[id.fileId]|
    ensures id !in p.pageMap && Content(p, id) == ZeroBytes()
  {
    if id in p.pageMap { CachedIsInFile(p, id); }
  }

  lemma ForgetsOnly(s: Pool, c: nat, id: PageId)
    requires c < |s.frames| && FrameOk(s.frames[c], s.files) && id !in s.pageMap
    ensures id !in Evicted(s, c).pageMap
  {
  }

  function Forgotten(p: Pool, c: nat, id: PageId): Pool
    requires c < |p.frames|
  {
    p.(frames := p.frames[c := Frame(None, p.frames[c].pins, false, false, p.frames[c].bytes)],
       pageMap := p.pageMap - {id})
  }

  lemma ForgetIsSafe(p: Pool, c: nat, id: PageId)
    requires Coherent(p) && id in p.pageMap && c == p.pageMap[id] && c < |p.frames| && p.frames[c].pins == 0
    ensures Coherent(Forgotten(p, c, id)) && PinnedKept(p, Forgotten(p, c, id))
    ensures forall x :: Content(Forgotten(p, c, id), x) == if x == id then DiskPage(p.files, id) else Content(p, x)
  {
    hide DiskPage;
    var p' := Forgotten(p, c, id);
    forall i | 0 <= i < |p.frames| ensures FrameOk(p'.frames[i], p'.files) { assert FrameOk(p.frames[i], p.files); }
    hide FrameOk;
  }

  function Flushed(p: Pool, c: nat): Pool
    requires c < |p.frames| && p.frames[c].pageId.Some? && Known(p.files, p.frames[c].pageId.value)
  {
    p.(frames := p.frames[c := p.frames[c].(dirty := false)],
       files := Written(p.files, p.frames[c].pageId.value, p.frames[c].bytes))
  }

  ghost predicate Clean(p: Pool, n: nat) {
    n <= |p.frames| && forall i :: 0 <= i < n ==> !p.frames[i].dirty
  }

  lemma FlushBegins(p: Pool)
    ensures SameContent(p, p) && Clean(p, 0)
  {
  }

  lemma CleanFrame(p: Pool, i: nat)
    requires Clean(p, i) && i < |p.frames| && !p.frames[i].dirty
    ensures Clean(p, i + 1)
  {
  }

  /** Writing one frame to its file. */
  lemma FlushIsSafe(s: Pool, p: Pool, c: nat)
    requires Coherent(p) && SameContent(s, p) && c < |p.frames| && p.frames[c].dirty && Clean(p, c)
    ensures p.frames[c].pageId.Some? && Known(p.files, p.frames[c].pageId.value)
    ensures Coherent(Flushed(p, c)) && SameContent(s, Flushed(p, c)) && Clean(Flushed(p, c), c + 1)
  {
    assert FrameOk(p.frames[c], p.files);
    var p' := Flushed(p, c);
    FlushKeepsContent(p, c);
    forall i | 0 <= i < |p'.frames| ensures FrameOk(p'.frames[i], p'.files) {
      assert FrameOk(p.frames[i], p.files);
      FlushKeepsFrame(p, c, i);
    }
    hide FrameOk, Written, DiskPage;
  }

  lemma FlushKeepsContent(p: Pool, c: nat)
    requires Inverse(p) && c < |p.frames| && FrameOk(p.frames[c], p.files) && p.frames[c].pageId.Some?
    ensures SameContent(p, Flushed(p, c))
  {
    WrittenPages(p.files, p.frames[c].pageId.value, p.frames[c].bytes);
    hide Written, DiskPage;
  }

  lemma FlushKeepsFrame(p: Pool, c: nat, i: nat)
    requires Inverse(p) && c < |p.frames| && FrameOk(p.frames[c], p.files) && p.frames[c].pageId.Some?
    requires i < |p.frames| && FrameOk(p.frames[i], p.files)
    ensures FrameOk(Flushed(p, c).frames[i], Flushed(p, c).files)
  {
    WrittenPages(p.files, p.frames[c].pageId.value, p.frames[c].bytes);
    FlushKeepsLengths(p.files, p.frames[c].pageId.value, p.frames[c].bytes);
    hide Written, DiskPage;
  }

  lemma FlushKeepsLengths(files: Files, id: PageId, s: seq<byte>)
    requires Known(files, id) && id.pageNumber < |files[id.fileId]|
    ensures Written(files, id, s).Keys == files.Keys
    ensures forall f :: f in files ==> |Written(files, id, s)[f]| == |files[f]|
  {
  }

  lemma CleanContent(s: Pool, p: Pool)
    requires Coherent(p) && SameContent(s, p) && Clean(p, |p.frames|)
    ensures forall id :: DiskPage(p.files, id) == Content(s, id)
  {
    forall id ensures DiskPage(p.files, id) == Content(p, id) {
      if id in p.pageMap { assert FrameOk(p.frames[p.pageMap[id]], p.files); }
    }
  }

  lemma Pinning(s: Pool, s': Pool, k: nat)
    requires Coherent(s) && k < |s.frames| && s.frames[k].pageId.Some?
    requires s' == s.(frames := s.frames[k := s.frames[k].(pins := s.frames[k].pins + 1, secondChance := true)])
    ensures Coherent(s') && SameContent(s, s') && PinnedKept(s, s')
  {
  }

  lemma Unpinning(s: Pool, s': Pool, k: nat)
    requires Coherent(s) && k < |s.frames| && s.frames[k].pageId.Some? && s.frames[k].pins > 0
    requires s' == s.(frames := s.frames[k := s.frames[k].(pins := s.frames[k].pins - 1)])
    ensures Coherent(s') && SameContent(s, s')
  {
    hide DiskPage;
  }

  /** A user of a page lets it go: the pool stands for the same pages, and the frame has one pin less. */
  method ReleasePage(pool: BufferManager, id: PageId)
    requires pool.Valid() && id in pool.pageMap && pool.pageMap[id] < |pool.frames|
    requires pool.frames[pool.pageMap[id]].pins > 0
    modifies pool.frames
    ensures pool.Valid() && SameContent(old(pool.State()), pool.State()) && pool.pageMap == old(pool.pageMap)
    ensures pool.pageMap[id] < |pool.frames|
    ensures pool.frames[pool.pageMap[id]].pins == old(pool.frames[pool.pageMap[id]].pins) - 1
    ensures forall i ::
      0 <= i < |pool.frames| && i != pool.pageMap[id] ==> pool.frames[i].pins == old(pool.frames[i].pins)
  {
    ghost var s := pool.State();
    pool.frames[pool.pageMap[id]].Unpin();
    Unpinning(s, pool.State(), pool.pageMap[id]);
  }

  /** A file is cut below the pool, which must not hold the pages behind the cut. */
  method TruncateBelow(pool: BufferManager, fileId: int, n: nat)
    requires pool.Valid() && fileId in pool.fileMgr.files
    requires forall id :: id in pool.pageMap && id.fileId == fileId ==> id.pageNumber < n
    modifies pool.fileMgr
    ensures pool.Valid() && pool.pageMap == old(pool.pageMap)
    ensures forall id ::
      Content(pool.State(), id) ==
        if id.fileId == fileId && id.pageNumber >= n then ZeroBytes() else Content(old(pool.State()), id)
  {
    TruncationIsSafe(pool.State(), fileId, n);
    hide Coherent, Separate, Extended;
    pool.fileMgr.TruncateFile(fileId, n);
  }

  /** Truncating a file is what it seems when no page behind the cut is in the buffer. */
  lemma TruncationIsSafe(p: Pool, fileId: int, n: nat)
    requires Coherent(p) && fileId in p.files
    requires forall id :: id in p.pageMap && id.fileId == fileId ==> id.pageNumber < n
    ensures var p' := p.(files := p.files[fileId := Extended(p.files[fileId], n)[..n]]);
      && Coherent(p')
      && forall id :: Content(p', id) == if id.fileId == fileId && id.pageNumber >= n then ZeroBytes()
        else Content(p, id)
  {
    var p' := p.(files := p.files[fileId := Extended(p.files[fileId], n)[..n]]);
    forall id: PageId | id.fileId != fileId || id.pageNumber < n
      ensures DiskPage(p'.files, id) == DiskPage(p.files, id) {}
    forall i | 0 <= i < |p.frames| ensures FrameOk(p'.frames[i], p'.files) {
      assert FrameOk(p.frames[i], p.files);
      if p.frames[i].pageId.Some? { assert p.frames[i].pageId.value in p.pageMap; }
    }
  }
}
