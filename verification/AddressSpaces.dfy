/** Runs of the virtual memory system: mmap, munmap, page fault, fork, exec, user stores and new processes,
    in any order, over page tables and range allocators together. */
module AddressSpaces {
  import opened Basics
  import opened Frames
  import opened Paging
  import opened Ownership
  import opened OwnershipSteps
  import opened VmOps
  import opened VmFork
  import V = VmeModel
  import VP = VmeProofs

  const BASE := 0x8000_0000
  const LIMIT := 0xF000_0000

  /** Page tables and frames, and the range allocator of each process. */
  datatype Os = Os(sys: Sys, vmes: map<int, V.Vme>)

  function FreshVme(): V.Vme {
    V.Vme(BASE, BASE, LIMIT, [], [])
  }

  /** Every mapped private page lies in an entry. */
  ghost predicate Covered(s: Sys, pid: int, v: V.Vme) {
    forall p {:trigger PageOf(s, pid, p)} :: Private(p) && PageOf(s, pid, p).Mapping? ==> p in V.EntryPages(v.entries)
  }

  const USERWORD := 7   // present, writable, user

  /** Every mapped private page and every private table has exactly the flags present, writable and user. */
  ghost predicate UserOnly(s: Sys, pid: int) {
    && (forall p {:trigger PageOf(s, pid, p)} :: Private(p) && PageOf(s, pid, p).Mapping? ==> PageOf(s, pid, p).flags == USERWORD)
    && (forall i {:trigger PdeOf(s, pid, i)} :: pid in s.dirs && FIRST <= i < LAST && Present(PdeOf(s, pid, i)) ==> Flags(PdeOf(s, pid, i)) == USERWORD)
  }

  /** A mapped private page is user-writable at both levels. */
  lemma UserWritable(s: Sys, pid: int, p: int)
    requires UserOnly(s, pid) && Private(p) && PageOf(s, pid, p).Mapping?
    ensures PageOf(s, pid, p).dir == USERWORD && PageOf(s, pid, p).flags == USERWORD
    ensures BitsOf(PageOf(s, pid, p).dir) == Bits(true, true, true, false) && BitsOf(PageOf(s, pid, p).flags) == Bits(true, true, true, false)
  {
    assert Present(PdeOf(s, pid, p / WORDS)) && FIRST <= p / WORDS < LAST;
  }

  ghost predicate GoodSpace(s: Sys, pid: int, v: V.Vme) {
    V.Inv(v) && v.base == BASE && v.limit == LIMIT && Covered(s, pid, v) && UserOnly(s, pid)
  }

  ghost predicate OsInv(o: Os) {
    && SysInv(o.sys)
    && o.vmes.Keys == o.sys.dirs.Keys
    && (forall pid {:trigger o.vmes[pid]} :: pid in o.vmes ==> GoodSpace(o.sys, pid, o.vmes[pid]))
  }

  /** The combined statement: a mapped private page lies in exactly one live entry of its process. */
  lemma MappedPageHasOneEntry(o: Os, pid: int, va: nat)
    requires OsInv(o) && pid in o.vmes && Private(va / PAGE) && PageOf(o.sys, pid, va / PAGE).Mapping?
    ensures var es := o.vmes[pid].entries; exists k :: OnlyEntry(es, va, k)
  {
    var v := o.vmes[pid];
    assert va / PAGE in V.EntryPages(v.entries);
    VP.FindIsExact(v, va);
    VP.FindFirst(v.entries, va);
    assert OnlyEntry(v.entries, va, V.Find(v.entries, va));
  }

  /** Entry k covers va and no other entry does. */
  ghost predicate OnlyEntry(es: seq<V.Entry>, va: nat, k: int) {
    && 0 <= k < |es| && V.Covers(es[k], va)
    && (forall i :: 0 <= i < |es| && V.Covers(es[i], va) ==> i == k)
  }

  // ---------- one entry's pages ----------

  lemma EntryInRange(v: V.Vme, k: nat)
    requires V.Inv(v) && v.base == BASE && v.limit == LIMIT && k < |v.entries| && v.entries[k].pages > 0
    ensures InRange(v.entries[k].start / PAGE, v.entries[k].pages)
    ensures forall p :: p in V.Pages(v.entries[k].start, v.entries[k].pages) <==>
                        v.entries[k].start / PAGE <= p < v.entries[k].start / PAGE + v.entries[k].pages
  {
    var e := v.entries[k];
    VP.CoversExact(v, k, 0);
    VP.EntryPagesAt(v.entries, k);
    forall p
      ensures p in V.Pages(e.start, e.pages) <==> e.start / PAGE <= p < e.start / PAGE + e.pages
    {
      assert V.IsPage(e.start, e.pages, p) <==> e.start / PAGE <= p < e.start / PAGE + e.pages;
    }
  }

  /** ~VMEEntry. */
  ghost function UnmapEntry(s: Sys, pid: int, v: V.Vme, k: nat): Sys
    requires SysInv(s) && pid in s.dirs && V.Inv(v) && v.base == BASE && v.limit == LIMIT && k < |v.entries|
  {
    if v.entries[k].pages == 0 then s
    else
      EntryInRange(v, k);
      UnmapRange(s, pid, v.entries[k].start / PAGE, v.entries[k].pages)
  }

  ghost predicate PagesGone(s: Sys, s': Sys, pid: int, gone: set<int>) {
    && s'.dirs == s.dirs && s'.global == s.global && s'.lo == s.lo && SameDirs(s, s')
    && s'.phys.avail == s.phys.avail && Fewer(s, s', pid)
    && (forall q, p {:trigger PageOf(s', q, p)} :: Private(p) ==>
          PageOf(s', q, p) == if q == pid && p in gone then Absent else PageOf(s, q, p))
  }

  lemma UnmapEntryStep(s: Sys, pid: int, v: V.Vme, k: nat)
    requires SysInv(s) && pid in s.dirs && V.Inv(v) && v.base == BASE && v.limit == LIMIT && k < |v.entries|
    ensures SysInv(UnmapEntry(s, pid, v, k))
    ensures PagesGone(s, UnmapEntry(s, pid, v, k), pid, V.Pages(v.entries[k].start, v.entries[k].pages))
  {
    hide SysInv, PageOf, V.Inv, V.Pages;
    var e := v.entries[k];
    if e.pages == 0 {
      NoPages(e.start);
    } else {
      EntryInRange(v, k);
      UnmapRangeStep(s, pid, e.start / PAGE, e.pages);
    }
  }

  lemma NoPages(start: nat)
    ensures V.Pages(start, 0) == {}
  {
    assert forall p :: !V.IsPage(start, 0, p);
  }

  /** Dropping the whole list: entries k, k + 1, ... in order. */
  ghost function UnmapAll(s: Sys, pid: int, v: V.Vme, k: nat): Sys
    requires SysInv(s) && pid in s.dirs && V.Inv(v) && v.base == BASE && v.limit == LIMIT && k <= |v.entries|
    decreases |v.entries| - k
  {
    if k == |v.entries| then s
    else
      UnmapEntryStep(s, pid, v, k);
      UnmapAll(UnmapEntry(s, pid, v, k), pid, v, k + 1)
  }

  lemma GoneTrans(s: Sys, s1: Sys, s2: Sys, pid: int, a: set<int>, b: set<int>)
    requires PagesGone(s, s1, pid, a) && PagesGone(s1, s2, pid, b)
    ensures PagesGone(s, s2, pid, a + b)
  {
    hide PageOf, PdeOf;
    DirsTrans(s, s1, s2);
    FewerTrans(s, s1, s2, pid);
    forall q, p {:trigger PageOf(s2, q, p)} | Private(p)
      ensures PageOf(s2, q, p) == if q == pid && p in a + b then Absent else PageOf(s, q, p)
    {
      assert PageOf(s2, q, p) == if q == pid && p in b then Absent else PageOf(s1, q, p);
    }
  }

  lemma {:induction false} UnmapAllStep(s: Sys, pid: int, v: V.Vme, k: nat)
    requires SysInv(s) && pid in s.dirs && V.Inv(v) && v.base == BASE && v.limit == LIMIT && k <= |v.entries|
    ensures SysInv(UnmapAll(s, pid, v, k))
    ensures PagesGone(s, UnmapAll(s, pid, v, k), pid, V.EntryPages(v.entries[k..]))
    decreases |v.entries| - k
  {
    hide SysInv, PageOf, V.Inv, V.Pages, UnmapEntry;
    if k < |v.entries| {
      var e := v.entries[k];
      UnmapEntryStep(s, pid, v, k);
      var s1 := UnmapEntry(s, pid, v, k);
      UnmapAllStep(s1, pid, v, k + 1);
      GoneTrans(s, s1, UnmapAll(s, pid, v, k), pid, V.Pages(e.start, e.pages), V.EntryPages(v.entries[k + 1..]));
      assert v.entries[k..][0] == e && v.entries[k..][1..] == v.entries[k + 1..];
    }
  }

  // ---------- exec ----------

  /** Once every entry is dropped nothing is mapped, since every mapped page was in an entry. */
  lemma AllUnmapped(s: Sys, pid: int, v: V.Vme)
    requires SysInv(s) && pid in s.dirs && GoodSpace(s, pid, v)
    ensures SysInv(UnmapAll(s, pid, v, 0)) && NothingMapped(UnmapAll(s, pid, v, 0), pid)
    ensures PagesGone(s, UnmapAll(s, pid, v, 0), pid, V.EntryPages(v.entries))
  {
    hide SysInv, V.Inv, V.EntryPages, UnmapAll;
    UnmapAllStep(s, pid, v, 0);
    assert v.entries[0..] == v.entries;
    var s' := UnmapAll(s, pid, v, 0);
    forall p {:trigger PageOf(s', pid, p)} | Private(p)
      ensures PageOf(s', pid, p) == Absent
    {
      assert PageOf(s, pid, p).Mapping? ==> p in V.EntryPages(v.entries);
    }
  }

  /** execl's clearing of the address space. */
  ghost function ClearSpace(s: Sys, pid: int, v: V.Vme): Sys
    requires SysInv(s) && pid in s.dirs && GoodSpace(s, pid, v)
  {
    AllUnmapped(s, pid, v);
    DropTables(UnmapAll(s, pid, v, 0), pid, FIRST)
  }

  /** exec returns every frame of the old address space to the free list, once, and keeps all other frames
      and every page of every other process. */
  lemma ExecReturnsEverything(s: Sys, pid: int, v: V.Vme)
    requires SysInv(s) && pid in s.dirs && GoodSpace(s, pid, v)
    ensures var s' := ClearSpace(s, pid, v);
            && SysInv(s') && NoSpace(s', pid) && SameOthers(s, s', pid) && OtherDirs(s, s', pid) && s'.dirs == s.dirs
            && (forall f :: f in s.roles && OfSpace(s.roles[f], pid) ==> f in s'.free && f !in s'.roles)
            && (forall f :: f in s.roles && !OfSpace(s.roles[f], pid) ==> f in s'.roles && s'.roles[f] == s.roles[f])
            && Distinct(s'.free)
  {
    hide SysInv, PageOf, V.Inv, Covered, UserOnly, PdeOf, Frames.Inv;
    AllUnmapped(s, pid, v);
    var s1 := UnmapAll(s, pid, v, 0);
    DropTablesStep(s1, pid, FIRST);
    var s' := ClearSpace(s, pid, v);
    NothingStays(s1, s', pid);
    FewerTrans(s, s1, s', pid);
    SameThenOther(s, s1, s', pid);
    forall f | f in s.roles && OfSpace(s.roles[f], pid)
      ensures f in s'.free && f !in s'.roles
    {
      AllReturned(s, s', pid, f);
    }
    forall f | f in s.roles && !OfSpace(s.roles[f], pid)
      ensures f in s'.roles && s'.roles[f] == s.roles[f]
    {
    }
    FreeDistinct(s');
    forall q, p {:trigger PageOf(s', q, p)} | q != pid && Private(p)
      ensures PageOf(s', q, p) == PageOf(s, q, p)
    {
      assert PageOf(s', q, p) == PageOf(s1, q, p);
    }
  }

  lemma SameThenOther(s: Sys, s1: Sys, s2: Sys, pid: int)
    requires SameDirs(s, s1) && OtherDirs(s1, s2, pid)
    ensures OtherDirs(s, s2, pid)
  {
    forall q, i {:trigger PdeOf(s2, q, i)} | q != pid && q in s.dirs && q in s2.dirs
      ensures PdeOf(s2, q, i) == PdeOf(s, q, i)
    {
      assert PdeOf(s2, q, i) == PdeOf(s1, q, i);
    }
  }

  lemma FreeDistinct(s: Sys)
    requires SysInv(s)
    ensures Distinct(s.free)
  {
  }

  lemma FewerTrans(s: Sys, s1: Sys, s2: Sys, pid: int)
    requires Fewer(s, s1, pid) && Fewer(s1, s2, pid)
    ensures Fewer(s, s2, pid)
  {
  }
}
