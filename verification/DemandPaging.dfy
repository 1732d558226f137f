/**
 Demand paging: the state of a mapping under any trace of page accesses.

 An access that the page table already allows costs nothing.  Otherwise it faults: a first
 read of an anonymous page maps the shared zero page, a first write takes a private frame, a
 write to a page on the zero page takes a private frame too, and a first read of a
 file-backed page takes a frame that is filled from disk.
 */
module DemandPaging {
  import opened Common

  const PAGE_KB: nat := 4

  datatype Access = Read(page: nat) | Write(page: nat)

  datatype Page = Reserved | ZeroPage | Private(frame: nat) | Disk(frame: nat)
  {
    predicate HasFrame() {
      Private? || Disk?
    }
  }

  datatype Frame = Free | Used | FromDisk

  // ---------- what a trace asks for ----------

  function Touched(trace: seq<Access>): set<nat> {
    if trace == [] then {} else Touched(trace[..|trace| - 1]) + {trace[|trace| - 1].page}
  }

  function Written(trace: seq<Access>): set<nat> {
    if trace == [] then {}
    else Written(trace[..|trace| - 1]) + if trace[|trace| - 1].Write? then {trace[|trace| - 1].page} else {}
  }

  // The first access to the page is a read.
  predicate ReadFirst(trace: seq<Access>, p: nat) {
    exists i | 0 <= i < |trace| :: trace[i] == Read(p) && p !in Touched(trace[..i])
  }

  // The pages first read and later written.
  function Upgraded(trace: seq<Access>): set<nat> {
    set p | p in Written(trace) && ReadFirst(trace, p)
  }

  // The faults and the resident memory, in kB, that a trace costs in a mapping whose
  // file-backed pages are `files`.
  function MinorFaults(trace: seq<Access>, files: set<nat>): nat {
    |Touched(trace) - files| + |Upgraded(trace) - files|
  }

  function MajorFaults(trace: seq<Access>, files: set<nat>): nat {
    |Touched(trace) * files|
  }

  function Resident(trace: seq<Access>, files: set<nat>): nat {
    PAGE_KB * (|Written(trace) - files| + |Touched(trace) * files|)
  }

  lemma {:induction false} TouchedMeans(trace: seq<Access>, p: nat)
    ensures p in Touched(trace) <==> exists i :: 0 <= i < |trace| && trace[i].page == p
    ensures p in Written(trace) <==> exists i :: 0 <= i < |trace| && trace[i] == Write(p)
  {
    if trace != [] {
      var front, last := trace[..|trace| - 1], |trace| - 1;
      TouchedMeans(front, p);
      assert forall i :: 0 <= i < last ==> front[i] == trace[i];
      assert p in Touched(front) ==> exists i :: 0 <= i < |trace| && trace[i].page == p;
      assert p in Written(front) ==> exists i :: 0 <= i < |trace| && trace[i] == Write(p);
      assert trace[last].page == p ==> p in Touched(trace);
      assert trace[last] == Write(p) ==> p in Written(trace);
    }
  }

  lemma {:induction false} TouchedMore(trace: seq<Access>, a: Access)
    ensures Touched(trace + [a]) == Touched(trace) + {a.page}
    ensures Written(trace + [a]) == Written(trace) + if a.Write? then {a.page} else {}
  {
    assert (trace + [a])[..|trace|] == trace;
  }

  lemma {:induction false} ReadFirstMore(trace: seq<Access>, a: Access, p: nat)
    ensures ReadFirst(trace + [a], p) <==> ReadFirst(trace, p) || (p !in Touched(trace) && a == Read(p))
  {
    var more := trace + [a];
    assert more[|trace|] == a && more[..|trace|] == trace;
    if i :| 0 <= i < |trace| && trace[i] == Read(p) && p !in Touched(trace[..i]) {
      assert more[i] == Read(p) && more[..i] == trace[..i];
    }
    if i :| 0 <= i < |more| && more[i] == Read(p) && p !in Touched(more[..i]) {
      if i < |trace| {
        assert trace[i] == more[i] && trace[..i] == more[..i];
      }
    }
  }

  // A page that is touched but not written has been read first, and one that has been read
  // first is touched.
  lemma {:induction false} TouchedUnwritten(trace: seq<Access>, p: nat)
    ensures p in Written(trace) ==> p in Touched(trace)
    ensures ReadFirst(trace, p) ==> p in Touched(trace)
    ensures p in Touched(trace) && p !in Written(trace) ==> ReadFirst(trace, p)
  {
    if trace != [] {
      var front, a := trace[..|trace| - 1], trace[|trace| - 1];
      assert trace == front + [a];
      TouchedUnwritten(front, p);
      ReadFirstMore(front, a, p);
    }
  }

  // How one more access changes the set of pages first read and later written.
  lemma UpgradedMore(trace: seq<Access>, a: Access)
    ensures Upgraded(trace + [a]) ==
              Upgraded(trace) + if a.Write? && a.page in Touched(trace) - Written(trace) then {a.page} else {}
    ensures a.page in Touched(trace) - Written(trace) ==> a.page !in Upgraded(trace)
  {
    TouchedMore(trace, a);
    forall p ensures p in Upgraded(trace + [a]) <==>
                     p in Upgraded(trace) || (a == Write(p) && p in Touched(trace) - Written(trace))
    {
      ReadFirstMore(trace, a, p);
      TouchedUnwritten(trace, p);
    }
  }

  // How one more element changes the size of a set outside and inside another.
  lemma OneMore(s: set<nat>, p: nat, files: set<nat>)
    ensures |(s + {p}) - files| == |s - files| + if p in s || p in files then 0 else 1
    ensures |(s + {p}) * files| == |s * files| + if p in s || p !in files then 0 else 1
  {
    if p in s {
      assert s + {p} == s;
    } else if p in files {
      assert (s + {p}) - files == s - files;
      assert (s + {p}) * files == s * files + {p};
    } else {
      assert (s + {p}) - files == (s - files) + {p};
      assert (s + {p}) * files == s * files;
    }
  }

  // What a read adds to the counts.
  lemma ReadCounts(trace: seq<Access>, p: nat, files: set<nat>)
    ensures var more, first := trace + [Read(p)], p !in Touched(trace);
            && MinorFaults(more, files) == MinorFaults(trace, files) + (if first && p !in files then 1 else 0)
            && MajorFaults(more, files) == MajorFaults(trace, files) + (if first && p in files then 1 else 0)
            && Resident(more, files) == Resident(trace, files) + (if first && p in files then PAGE_KB else 0)
  {
    hide Touched, Written, Upgraded;
    TouchedMore(trace, Read(p));
    UpgradedMore(trace, Read(p));
    assert Written(trace) + {} == Written(trace) && Upgraded(trace) + {} == Upgraded(trace);
    OneMore(Touched(trace), p, files);
  }

  // What a write to an anonymous page adds to the counts.
  lemma WriteCounts(trace: seq<Access>, p: nat, files: set<nat>)
    requires p !in files
    ensures var more, first := trace + [Write(p)], p !in Written(trace);
            && MinorFaults(more, files) == MinorFaults(trace, files) + (if first then 1 else 0)
            && MajorFaults(more, files) == MajorFaults(trace, files)
            && Resident(more, files) == Resident(trace, files) + (if first then PAGE_KB else 0)
  {
    hide Touched, Written, Upgraded;
    TouchedMore(trace, Write(p));
    UpgradedMore(trace, Write(p));
    TouchedUnwritten(trace, p);
    assert Upgraded(trace) + {} == Upgraded(trace);
    OneMore(Touched(trace), p, files);
    OneMore(Written(trace), p, files);
    OneMore(Upgraded(trace), p, files);
  }

  // ---------- the state machine ----------

  // The state of every page follows from the trace.
  ghost predicate PageOk(page: Page, p: nat, files: set<nat>, trace: seq<Access>) {
    match page
    case Reserved => p !in Touched(trace)
    case ZeroPage => p in Touched(trace) && p !in Written(trace) && p !in files
    case Private(_) => p in Written(trace) && p in Touched(trace) && p !in files
    case Disk(_) => p in Touched(trace) && p in files && p !in Written(trace)
  }

  ghost predicate PagesOk(pages: seq<Page>, files: set<nat>, trace: seq<Access>) {
    && (forall p :: 0 <= p < |pages| ==> PageOk(pages[p], p, files, trace))
    && (forall p :: p in Touched(trace) ==> p < |pages|)
  }

  predicate Owns(pages: seq<Page>, p: nat, f: nat) {
    p < |pages| && pages[p].HasFrame() && pages[p].frame == f
  }

  // A page with a frame has a frame of its own, which is in use, and no other frame is.
  ghost predicate FramesOk(pages: seq<Page>, frames: seq<Frame>) {
    && (forall p :: 0 <= p < |pages| && pages[p].HasFrame() ==>
          pages[p].frame < |frames| && frames[pages[p].frame] == if pages[p].Disk? then FromDisk else Used)
    && (forall p, q :: 0 <= p < q < |pages| && pages[p].HasFrame() && pages[q].HasFrame() ==>
          pages[p].frame != pages[q].frame)
    && (forall f :: 0 <= f < |frames| && frames[f] != Free ==> exists p: nat :: Owns(pages, p, f))
  }

  // How many frames are in use.
  function InUse(frames: seq<Frame>): nat {
    if frames == [] then 0 else InUse(frames[..|frames| - 1]) + if frames[|frames| - 1] == Free then 0 else 1
  }

  lemma {:induction false} OneMoreInUse(frames: seq<Frame>, f: nat, used: Frame)
    requires f < |frames| && frames[f] == Free && used != Free
    ensures InUse(frames[f := used]) == InUse(frames) + 1
  {
    var last := |frames| - 1;
    if f == last {
      assert frames[f := used][..last] == frames[..last];
    } else {
      OneMoreInUse(frames[..last], f, used);
      assert frames[f := used][..last] == frames[..last][f := used];
    }
  }

  lemma {:induction false} NoneInUse(frames: seq<Frame>)
    requires forall f :: 0 <= f < |frames| ==> frames[f] == Free
    ensures InUse(frames) == 0
  {
    if frames != [] {
      NoneInUse(frames[..|frames| - 1]);
    }
  }

  // The page after an access, if f is the frame that it takes.
  function AfterAccess(page: Page, a: Access, file: bool, f: nat): Page {
    match page
    case Reserved => if file then Disk(f) else if a.Write? then Private(f) else ZeroPage
    case ZeroPage => if a.Write? then Private(f) else ZeroPage
    case _ => page
  }

  // zeroUsers lists exactly the pages on the zero page, each once.
  ghost predicate ZeroOk(pages: seq<Page>, zeroUsers: seq<nat>) {
    && Distinct(zeroUsers)
    && (forall p :: p in zeroUsers ==> p < |pages| && pages[p].ZeroPage?)
    && (forall p :: 0 <= p < |pages| && pages[p].ZeroPage? ==> p in zeroUsers)
  }

  lemma PagesMove(pages: seq<Page>, files: set<nat>, trace: seq<Access>, a: Access, page: Page)
    requires PagesOk(pages, files, trace) && a.page < |pages| && PageOk(page, a.page, files, trace + [a])
    ensures PagesOk(pages[a.page := page], files, trace + [a])
  {
    TouchedMore(trace, a);
    hide Touched, Written;
    var pages' := pages[a.page := page];
    forall p | 0 <= p < |pages'| ensures PageOk(pages'[p], p, files, trace + [a]) {
      assert PageOk(pages[p], p, files, trace);
    }
  }

  lemma FramesTake(pages: seq<Page>, frames: seq<Frame>, p: nat, page: Page)
    requires FramesOk(pages, frames) && p < |pages| && !pages[p].HasFrame()
    requires page.HasFrame() && page.frame < |frames| && frames[page.frame] == Free
    ensures FramesOk(pages[p := page], frames[page.frame := if page.Disk? then FromDisk else Used])
  {
    var pages', frames' := pages[p := page], frames[page.frame := if page.Disk? then FromDisk else Used];
    forall f | 0 <= f < |frames'| && frames'[f] != Free ensures exists q: nat :: Owns(pages', q, f) {
      if f == page.frame {
        assert Owns(pages', p, f);
      } else {
        var q: nat :| Owns(pages, q, f);
        assert Owns(pages', q, f);
      }
    }
  }

  // A page that gets no frame leaves the frames as they are.
  lemma FramesStay(pages: seq<Page>, frames: seq<Frame>, p: nat, page: Page)
    requires FramesOk(pages, frames) && p < |pages| && !pages[p].HasFrame() && !page.HasFrame()
    ensures FramesOk(pages[p := page], frames)
  {
    var pages' := pages[p := page];
    forall f | 0 <= f < |frames| && frames[f] != Free ensures exists q: nat :: Owns(pages', q, f) {
      var q: nat :| Owns(pages, q, f);
      assert Owns(pages', q, f);
    }
  }

  function Removed(s: seq<nat>, p: nat): (r: seq<nat>)
    ensures forall q :: q in r <==> q in s && q != p
  {
    if s == [] then []
    else
      var rest := Removed(s[1..], p);
      assert s == [s[0]] + s[1..];
      if s[0] == p then rest else [s[0]] + rest
  }

  lemma {:induction false} RemovedAbsent(s: seq<nat>, p: nat)
    requires p !in s
    ensures Removed(s, p) == s
  {
    if s != [] {
      RemovedAbsent(s[1..], p);
      assert s == [s[0]] + s[1..];
    }
  }

  lemma {:induction false} RemovedDistinct(s: seq<nat>, p: nat)
    requires Distinct(s)
    ensures Distinct(Removed(s, p))
  {
    if s != [] {
      var rest := Removed(s[1..], p);
      RemovedDistinct(s[1..], p);
      if s[0] != p {
        assert s[0] !in s[1..];
        var r := [s[0]] + rest;
        forall i, j | 0 <= i < j < |r| ensures r[i] != r[j] {
          assert r[j] == rest[j - 1] && rest[j - 1] in rest;
        }
      }
    }
  }

  class Mapping {
    // The file-backed pages; their mapping is read-only.
    const files: set<nat>
    var pages: seq<Page>
    var frames: seq<Frame>
    // The pages on the shared zero page, in the order in which they got there.
    var zeroUsers: seq<nat>
    var rss: nat
    var minorFaults: nat
    var majorFaults: nat
    ghost var trace: seq<Access>

    ghost predicate Valid()
      reads this
    {
      && PagesOk(pages, files, trace) && FramesOk(pages, frames) && ZeroOk(pages, zeroUsers)
      && rss == Resident(trace, files) == PAGE_KB * InUse(frames)
      && minorFaults == MinorFaults(trace, files)
      && majorFaults == MajorFaults(trace, files)
    }

    constructor (nPages: nat, nFrames: nat, files: set<nat>)
      ensures Valid() && trace == [] && this.files == files && |pages| == nPages && |frames| == nFrames
      ensures rss == 0 && minorFaults == 0 && majorFaults == 0
    {
      this.files := files;
      pages := seq(nPages, _ => Reserved);
      frames := seq(nFrames, _ => Free);
      zeroUsers := [];
      rss, minorFaults, majorFaults := 0, 0, 0;
      trace := [];
      new;
      NoneInUse(frames);
      assert Upgraded([]) == {};
      assert {} - files == {} && {} * files == {};
    }

    // An access that the page table already allows.
    method Hit(a: Access)
      requires Valid() && a.page < |pages| && (a.Write? ==> a.page !in files)
      requires pages[a.page].Private? || (a.Read? && pages[a.page] != Reserved)
      modifies this`trace
      ensures Valid() && trace == old(trace) + [a]
    {
      var p := a.page;
      hide Touched, Written, Resident, MinorFaults, MajorFaults, FramesOk, ZeroOk;
      assert PageOk(pages[p], p, files, trace);
      TouchedMore(trace, a);
      if a.Write? {
        WriteCounts(trace, p, files);
      } else {
        ReadCounts(trace, p, files);
      }
      PagesMove(pages, files, trace, a, pages[p]);
      assert pages[p := pages[p]] == pages;
      trace := trace + [a];
    }

    // First read of an anonymous page: point it at the shared zero page.
    method ReadFault(p: nat)
      requires Valid() && p < |pages| && pages[p] == Reserved && p !in files
      modifies this`pages, this`zeroUsers, this`minorFaults, this`trace
      ensures Valid() && trace == old(trace) + [Read(p)]
      ensures pages == old(pages)[p := ZeroPage] && minorFaults == old(minorFaults) + 1
      ensures zeroUsers == old(zeroUsers) + [p]
    {
      hide Touched, Written, Resident, MinorFaults, MajorFaults;
      assert PageOk(pages[p], p, files, trace);
      TouchedMore(trace, Read(p));
      TouchedUnwritten(trace, p);
      ReadCounts(trace, p, files);
      PagesMove(pages, files, trace, Read(p), ZeroPage);
      FramesStay(pages, frames, p, ZeroPage);
      hide PagesOk, FramesOk;
      assert p !in zeroUsers;
      pages := pages[p := ZeroPage];
      zeroUsers := zeroUsers + [p];
      minorFaults := minorFaults + 1;
      trace := trace + [Read(p)];
    }

    // First read of a file-backed page: fill a frame from disk.
    method FileFault(p: nat, f: nat)
      requires Valid() && p < |pages| && pages[p] == Reserved && p in files && f < |frames| && frames[f] == Free
      modifies this`pages, this`frames, this`rss, this`majorFaults, this`trace
      ensures Valid() && trace == old(trace) + [Read(p)]
      ensures pages == old(pages)[p := Disk(f)] && frames == old(frames)[f := FromDisk]
      ensures majorFaults == old(majorFaults) + 1 && rss == old(rss) + PAGE_KB
    {
      hide Touched, Written, Resident, MinorFaults, MajorFaults;
      assert PageOk(pages[p], p, files, trace);
      TouchedMore(trace, Read(p));
      TouchedUnwritten(trace, p);
      ReadCounts(trace, p, files);
      PagesMove(pages, files, trace, Read(p), Disk(f));
      FramesTake(pages, frames, p, Disk(f));
      OneMoreInUse(frames, f, FromDisk);
      hide PagesOk, FramesOk;
      pages := pages[p := Disk(f)];
      frames := frames[f := FromDisk];
      rss := rss + PAGE_KB;
      majorFaults := majorFaults + 1;
      trace := trace + [Read(p)];
    }

    // A write to an anonymous page without a private frame: take one.  When the page was on
    // the zero page, this is its second fault.
    method WriteFault(p: nat, f: nat)
      requires Valid() && p < |pages| && !pages[p].HasFrame() && p !in files && f < |frames| && frames[f] == Free
      modifies this`pages, this`frames, this`zeroUsers, this`rss, this`minorFaults, this`trace
      ensures Valid() && trace == old(trace) + [Write(p)]
      ensures pages == old(pages)[p := Private(f)] && frames == old(frames)[f := Used]
      ensures minorFaults == old(minorFaults) + 1 && rss == old(rss) + PAGE_KB
      ensures zeroUsers == Removed(old(zeroUsers), p)
    {
      hide Touched, Written, Resident, MinorFaults, MajorFaults;
      assert PageOk(pages[p], p, files, trace);
      TouchedMore(trace, Write(p));
      TouchedUnwritten(trace, p);
      WriteCounts(trace, p, files);
      PagesMove(pages, files, trace, Write(p), Private(f));
      FramesTake(pages, frames, p, Private(f));
      OneMoreInUse(frames, f, Used);
      RemovedDistinct(zeroUsers, p);
      hide PagesOk, FramesOk, Distinct;
      pages := pages[p := Private(f)];
      frames := frames[f := Used];
      zeroUsers := Removed(zeroUsers, p);
      rss := rss + PAGE_KB;
      minorFaults := minorFaults + 1;
      trace := trace + [Write(p)];
    }

    // The access needs a frame that the page does not have.
    predicate NeedsFrame(a: Access)
      requires a.page < |pages|
      reads this
    {
      if a.Write? then !pages[a.page].Private? else pages[a.page] == Reserved && a.page in files
    }

    // Any access that the mapping allows; f is the frame that the kernel takes if it needs one.
    method Touch(a: Access, f: nat)
      requires Valid() && a.page < |pages| && (a.Write? ==> a.page !in files)
      requires NeedsFrame(a) ==> f < |frames| && frames[f] == Free
      modifies this
      ensures Valid() && trace == old(trace) + [a]
      ensures pages == old(pages)[a.page := AfterAccess(old(pages)[a.page], a, a.page in files, f)]
      ensures zeroUsers == if a.Write? then Removed(old(zeroUsers), a.page)
                           else if old(pages)[a.page] == Reserved && a.page !in files then old(zeroUsers) + [a.page]
                           else old(zeroUsers)
      ensures frames == if old(NeedsFrame(a)) then old(frames)[f := if a.page in files then FromDisk else Used] else old(frames)
    {
      hide Valid;
      var p := a.page;
      if pages[p].Private? || (a.Read? && pages[p] != Reserved) {
        if a.Write? {
          PrivateIsNotZero(p);
          RemovedAbsent(zeroUsers, p);
        }
        Hit(a);
      } else if p in files {
        FileFault(p, f);
      } else if a.Write? {
        NoDiskOutsideFiles(p);
        WriteFault(p, f);
      } else {
        ReadFault(p);
      }
    }

    // A frame is in use if and only if some page has it, and the resident memory is that of
    // the frames in use.
    lemma FramesInUse(f: nat)
      requires Valid() && f < |frames|
      ensures frames[f] != Free <==> exists p: nat :: Owns(pages, p, f)
      ensures rss == PAGE_KB * InUse(frames)
    {
    }

    lemma PrivateIsNotZero(p: nat)
      requires Valid() && p < |pages| && pages[p].Private?
      ensures p !in zeroUsers
    {
    }

    lemma NoDiskOutsideFiles(p: nat)
      requires Valid() && p < |pages| && p !in files
      ensures !pages[p].Disk?
    {
      assert PageOk(pages[p], p, files, trace);
    }
  }

  // ---------- reading first costs double ----------

  // A trace that reads every page of a set before it writes it takes exactly twice the
  // faults of one that only writes the same pages, for the same resident memory.
  lemma ReadingFirstCostsDouble(readFirst: seq<Access>, writeOnly: seq<Access>, pages: set<nat>)
    requires Touched(readFirst) == Written(readFirst) == pages && forall p :: p in pages ==> ReadFirst(readFirst, p)
    requires Touched(writeOnly) == pages && forall i :: 0 <= i < |writeOnly| ==> writeOnly[i].Write?
    ensures MinorFaults(writeOnly, {}) == |pages|
    ensures MinorFaults(readFirst, {}) == 2 * MinorFaults(writeOnly, {})
    ensures Resident(readFirst, {}) == Resident(writeOnly, {}) == PAGE_KB * |pages|
  {
    WritesOnly(writeOnly);
    assert Upgraded(readFirst) == pages && Upgraded(writeOnly) == {};
    hide Touched, Written, Upgraded;
    assert pages - {} == pages && Upgraded(writeOnly) - {} == {};
    assert pages * {} == {};
  }

  lemma {:induction false} WritesOnly(trace: seq<Access>)
    requires forall i :: 0 <= i < |trace| ==> trace[i].Write?
    ensures Written(trace) == Touched(trace)
  {
    if trace != [] {
      WritesOnly(trace[..|trace| - 1]);
    }
  }

  function ReadAll(n: nat): seq<Access> {
    seq(n, (i: nat) => Read(i))
  }

  function WriteAll(n: nat): seq<Access> {
    seq(n, (i: nat) => Write(i))
  }

  lemma AllPages(n: nat) returns (pages: set<nat>)
    ensures |pages| == n && forall p :: p in pages <==> 0 <= p < n
  {
    if n == 0 {
      pages := {};
    } else {
      pages := AllPages(n - 1);
      pages := pages + {n - 1};
    }
  }

  // Reading n pages and then writing them: 2n faults; writing them alone: n; PAGE_KB * n
  // resident either way.
  lemma ReadAllThenWriteAll(n: nat)
    ensures MinorFaults(ReadAll(n) + WriteAll(n), {}) == 2 * n
    ensures MinorFaults(WriteAll(n), {}) == n
    ensures Resident(ReadAll(n) + WriteAll(n), {}) == Resident(WriteAll(n), {}) == PAGE_KB * n
  {
    var both := ReadAll(n) + WriteAll(n);
    var pages := AllPages(n);
    forall p: nat ensures p in Touched(both) <==> p in pages
      ensures p in Written(both) <==> p in pages
      ensures p in Touched(WriteAll(n)) <==> p in pages
      ensures p in pages ==> ReadFirst(both, p)
    {
      TouchedMeans(both, p);
      TouchedMeans(WriteAll(n), p);
      if p < n {
        assert both[p] == Read(p) && both[n + p] == Write(p) && WriteAll(n)[p] == Write(p);
        TouchedMeans(both[..p], p);
      }
    }
    assert Touched(both) == pages && Written(both) == pages && Touched(WriteAll(n)) == pages;
    ReadingFirstCostsDouble(both, WriteAll(n), pages);
  }
}
