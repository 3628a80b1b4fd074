/** All runs of spawn, mmap, munmap, page fault, store, fork and exec. */
module AddressSpaceRuns {
  import opened Basics
  import opened Frames
  import opened Paging
  import opened Ownership
  import opened OwnershipSteps
  import opened VmOps
  import opened VmFork
  import opened AddressSpaces
  import V = VmeModel
  import VP = VmeProofs
  import F = PageFill
  import B = Bytes
  import opened FaultFill

  /** The files entries refer to; a process without a page at va faults there. */
  datatype Step =
    | Spawn(pid: int)
    | Mmap(pid: int, size: nat, file: V.File, offset: nat, user: bool)
    | Munmap(pid: int, va: nat, user: bool)
    | Fault(pid: int, va: nat)
    | Store(pid: int, vpn: int, k: nat, word: int)
    | Fork(pid: int, child: int)
    | Exec(pid: int)

  /** When a step can be taken. */
  ghost predicate Enabled(o: Os, t: Step) {
    match t
    case Spawn(pid) => pid !in o.vmes
    case Mmap(pid, size, _, _, _) => pid in o.vmes && size < U32
    case Munmap(pid, _, _) => pid in o.vmes
    case Fault(pid, va) => pid in o.vmes && Private(va / PAGE) && PageOf(o.sys, pid, va / PAGE) == Absent
    case Store(pid, vpn, k, _) => pid in o.vmes && Private(vpn) && PageOf(o.sys, pid, vpn).Mapping? && k < WORDS
    case Fork(pid, child) => pid in o.vmes && child !in o.vmes
    case Exec(pid) => pid in o.vmes
  }

  // ---------- one process changes, the others do not ----------

  lemma OneProcess(o: Os, s': Sys, pid: int, v': V.Vme)
    requires OsInv(o) && SysInv(s') && SameOthers(o.sys, s', pid) && OtherDirs(o.sys, s', pid) && pid in s'.dirs && GoodSpace(s', pid, v')
    ensures OsInv(Os(s', o.vmes[pid := v']))
  {
    hide SysInv, GoodSpace, PageOf, PdeOf;
    var o' := Os(s', o.vmes[pid := v']);
    assert forall q :: q in o'.vmes.Keys <==> q in s'.dirs.Keys;
    forall q {:trigger o'.vmes[q]} | q in o'.vmes
      ensures GoodSpace(s', q, o'.vmes[q])
    {
      if q != pid {
        OtherGood(o.sys, s', pid, q, o.vmes[q]);
      }
    }
  }

  lemma OtherGood(s: Sys, s': Sys, pid: int, q: int, v: V.Vme)
    requires GoodSpace(s, q, v) && q != pid && SameOthers(s, s', pid) && OtherDirs(s, s', pid) && q in s.dirs
    ensures GoodSpace(s', q, v)
  {
    hide V.Inv, V.EntryPages, PageOf, PdeOf;
    forall p {:trigger PageOf(s', q, p)} | Private(p) && PageOf(s', q, p).Mapping?
      ensures p in V.EntryPages(v.entries) && PageOf(s', q, p).flags == USERWORD
    {
      assert PageOf(s', q, p) == PageOf(s, q, p);
    }
    forall i {:trigger PdeOf(s', q, i)} | q in s'.dirs && FIRST <= i < LAST && Present(PdeOf(s', q, i))
      ensures Flags(PdeOf(s', q, i)) == USERWORD
    {
      assert PdeOf(s', q, i) == PdeOf(s, q, i);
    }
  }

  /** Directories that are all the same leave the tables' flags alone. */
  lemma UserStays(s: Sys, s': Sys, pid: int)
    requires UserOnly(s, pid) && SameDirs(s, s')
    requires forall p {:trigger PageOf(s', pid, p)} :: Private(p) && PageOf(s', pid, p).Mapping? ==> PageOf(s', pid, p).flags == USERWORD
    ensures UserOnly(s', pid) && OtherDirs(s, s', pid)
  {
    hide PageOf, PdeOf;
    forall i {:trigger PdeOf(s', pid, i)} | pid in s'.dirs && FIRST <= i < LAST && Present(PdeOf(s', pid, i))
      ensures Flags(PdeOf(s', pid, i)) == USERWORD
    {
      assert PdeOf(s', pid, i) == PdeOf(s, pid, i);
    }
  }

  lemma ButIsOthers(s: Sys, s': Sys, pid: int, vpn: int)
    requires SameBut(s, s', pid, vpn)
    ensures SameOthers(s, s', pid)
  {
  }

  // ---------- mmap ----------

  function DoMmap(o: Os, pid: int, size: nat, file: V.File, offset: nat, user: bool): Os
    requires pid in o.vmes
  {
    o.(vmes := o.vmes[pid := V.AddEntry(o.vmes[pid], size, file, offset, user).0])
  }

  lemma MmapKeeps(o: Os, pid: int, size: nat, file: V.File, offset: nat, user: bool)
    requires OsInv(o) && pid in o.vmes && size < U32 && VP.NoOverrun(o.vmes[pid], size)
    ensures OsInv(DoMmap(o, pid, size, file, offset, user))
  {
    hide SysInv, V.Inv, V.AddEntry, PageOf, V.EntryPages, UserOnly;
    var v := o.vmes[pid];
    VP.AddEntryResult(v, size, file, offset, user);
    var (v', va) := V.AddEntry(v, size, file, offset, user);
    assert Covered(o.sys, pid, v);
    assert V.EntryPages(v.entries) <= V.EntryPages(v'.entries);
    assert GoodSpace(o.sys, pid, v');
    OneProcess(o, o.sys, pid, v');
  }

  /** mmap keeps the combined invariant exactly when its 32-bit sum does not wrap on the bump path. */
  lemma MmapKeepsIff(o: Os, pid: int, size: nat, file: V.File, offset: nat, user: bool)
    requires OsInv(o) && pid in o.vmes && size < U32
    ensures OsInv(DoMmap(o, pid, size, file, offset, user)) <==> VP.NoOverrun(o.vmes[pid], size)
  {
    hide SysInv, V.Inv, V.AddEntry, V.EntryPages, VP.NoOverrun;
    assert GoodSpace(o.sys, pid, o.vmes[pid]);
    VP.AddEntryKeepsIff(o.vmes[pid], size, file, offset, user);
    var o' := DoMmap(o, pid, size, file, offset, user);
    if VP.NoOverrun(o.vmes[pid], size) {
      MmapKeeps(o, pid, size, file, offset, user);
    } else {
      assert OsInv(o') ==> GoodSpace(o'.sys, pid, o'.vmes[pid]);
    }
  }

  /** Three requests by a fresh process, the first of which wraps, and one address lies in two live entries. */
  lemma TwoEntriesAfterWrap()
    ensures var v1 := V.AddEntry(FreshVme(), 0x8000_0000, V.NoFile, 0, true).0;
            var v2 := V.AddEntry(v1, 0x8000_0000, V.NoFile, 0, true).0;
            var v3 := V.AddEntry(v2, 0x1000, V.NoFile, 0, true).0;
            && !VP.NoOverrun(FreshVme(), 0x8000_0000)
            && |v3.entries| == 3 && V.Covers(v3.entries[1], 0x8000_0000) && v3.entries[1].start == v3.entries[2].start == 0x8000_0000
            && v3.entries[1].pages > 0 && v3.entries[2].pages > 0
  {
    var e1 := V.Entry(0x8000_0000, 0x8_0000, 0x8000_0000, V.NoFile, 0, true);
    var v1 := V.AddEntry(FreshVme(), 0x8000_0000, V.NoFile, 0, true).0;
    assert v1 == V.Vme(BASE, 0, LIMIT, [e1], []);
    var e2 := V.Entry(0, 0x8_0000, 0x8000_0000, V.NoFile, 0, true);
    var v2 := V.AddEntry(v1, 0x8000_0000, V.NoFile, 0, true).0;
    assert v2 == V.Vme(BASE, 0x8000_0000, LIMIT, [e2, e1], []);
    var e3 := V.Entry(0x8000_0000, 1, 0x1000, V.NoFile, 0, true);
    assert V.InsertEntry([e1], e3) == [e3, e1];
    assert V.InsertEntry([e2, e1], e3) == [e2, e3, e1] by {
      assert [e2, e1][1..] == [e1];
    }
  }

  // ---------- munmap ----------

  ghost function DoMunmap(o: Os, pid: int, va: nat, user: bool): Os
    requires OsInv(o) && pid in o.vmes
  {
    var v := o.vmes[pid];
    var k := V.FindRemovable(v.entries, va, user);
    if k == |v.entries| then o
    else
      assert GoodSpace(o.sys, pid, v);
      Os(UnmapEntry(o.sys, pid, v, k), o.vmes[pid := V.RemoveEntry(v, va, user)])
  }

  lemma MunmapKeeps(o: Os, pid: int, va: nat, user: bool)
    requires OsInv(o) && pid in o.vmes
    ensures OsInv(DoMunmap(o, pid, va, user))
  {
    hide SysInv, V.Inv, V.RemoveEntry, PageOf, PdeOf, V.EntryPages, V.Pages, UnmapEntry;
    var v := o.vmes[pid];
    var k := V.FindRemovable(v.entries, va, user);
    if k < |v.entries| {
      assert GoodSpace(o.sys, pid, v);
      UnmapEntryStep(o.sys, pid, v, k);
      VP.RemoveEntryResult(v, va, user);
      var s', v' := UnmapEntry(o.sys, pid, v, k), V.RemoveEntry(v, va, user);
      GoneKeeps(o.sys, s', pid, v, v', V.Pages(v.entries[k].start, v.entries[k].pages));
      RemoveBounds(v, va, user);
      OneProcess(o, s', pid, v');
    }
  }

  lemma RemoveBounds(v: V.Vme, va: nat, user: bool)
    ensures V.RemoveEntry(v, va, user).base == v.base && V.RemoveEntry(v, va, user).limit == v.limit
  {
  }

  lemma GoneKeeps(s: Sys, s': Sys, pid: int, v: V.Vme, v': V.Vme, gone: set<int>)
    requires Covered(s, pid, v) && UserOnly(s, pid) && PagesGone(s, s', pid, gone) && V.EntryPages(v'.entries) == V.EntryPages(v.entries) - gone
    ensures Covered(s', pid, v') && SameOthers(s, s', pid) && UserOnly(s', pid) && OtherDirs(s, s', pid)
  {
    hide PageOf, PdeOf, V.EntryPages;
    forall p {:trigger PageOf(s', pid, p)} | Private(p) && PageOf(s', pid, p).Mapping?
      ensures p in V.EntryPages(v'.entries) && PageOf(s', pid, p).flags == USERWORD
    {
      assert PageOf(s', pid, p) == PageOf(s, pid, p) && PageOf(s, pid, p).Mapping?;
    }
    UserStays(s, s', pid);
  }

  // ---------- page fault ----------

  /** The words of the new page: zero, or what read_all puts there. */
  ghost function Fill(files: Files, e: V.Entry, va: nat): (r: seq<int>)
    ensures |r| == WORDS
  {
    if e.file.NoFile? then Zero() else B.Words(F.Filled(Contents(files, e.file), e, va))
  }

  /** vmm_pageFault for a private address; without an entry the process exits and memory is as it was. */
  ghost function DoFault(o: Os, files: Files, pid: int, va: nat): Maybe<Os>
    requires OsInv(o) && Enabled(o, Fault(pid, va))
  {
    var v := o.vmes[pid];
    var k := V.Find(v.entries, va);
    if k == |v.entries| then Done(o)
    else
      AllocStep(o.sys);
      match DoAlloc(o.sys)
      case Panic => Panic
      case Done((s1, f)) =>
        match MapPage(s1, pid, va / PAGE, f, false, true, true)
        case Panic => Panic
        case Done(s2) => Done(o.(sys := DoWrite(s2, f, Fill(files, v.entries[k], va))))
  }

  /** The fault adds exactly one page, user-writable at both levels, with the words its entry prescribes. */
  lemma FaultAdds(o: Os, files: Files, pid: int, va: nat)
    requires OsInv(o) && Enabled(o, Fault(pid, va)) && DoFault(o, files, pid, va).Done?
    requires V.Find(o.vmes[pid].entries, va) < |o.vmes[pid].entries|
    ensures var o' := DoFault(o, files, pid, va).value;
            var e := o.vmes[pid].entries[V.Find(o.vmes[pid].entries, va)];
            && SysInv(o'.sys) && o'.vmes == o.vmes && SameBut(o.sys, o'.sys, pid, va / PAGE)
            && DirSet(o.sys, o'.sys, pid, va / PAGE / WORDS, USERWORD)
            && PageOf(o'.sys, pid, va / PAGE) == Mapping(USERWORD, USERWORD, Fill(files, e, va))
  {
    hide SysInv, PageOf, PteOf, PdeOf, V.Find, Fill, GoodSpace, MapPage, Frames.Inv, DoAlloc, DirSet;
    var vpn, v := va / PAGE, o.vmes[pid];
    AllocStep(o.sys);
    var (s1, f) := DoAlloc(o.sys).value;
    DirsStay(o.sys, s1, f);
    StillAbsent(o.sys, s1, pid, vpn);
    MapPageStep(s1, pid, vpn, f, false, true, true);
    UserDir(o, s1, pid, vpn);
    var s2 := MapPage(s1, pid, vpn, f, false, true, true).value;
    MappedRole(s1, pid, vpn, f, false, true, true);
    WriteStep(s2, f, Fill(files, v.entries[V.Find(v.entries, va)], va));
    var s' := DoFault(o, files, pid, va).value.sys;
    DirsStay(s2, s', f);
    SameThenSet(o.sys, s1, s2, pid, vpn / WORDS, USERWORD);
    DirSetStays(o.sys, s2, s', pid, vpn / WORDS, USERWORD);
    FaultPages(o.sys, s1, s2, s', pid, vpn);
  }

  /** The directory word of the faulting page has or gets exactly the user flags. */
  lemma UserDir(o: Os, s1: Sys, pid: int, vpn: int)
    requires OsInv(o) && SameDirs(o.sys, s1) && pid in o.vmes && Private(vpn)
    ensures MapDir(s1, pid, vpn / WORDS, false, true, true) == USERWORD && MapFlags(false, true, true) == USERWORD
  {
    hide SysInv;
    assert GoodSpace(o.sys, pid, o.vmes[pid]);
    assert PdeOf(s1, pid, vpn / WORDS) == PdeOf(o.sys, pid, vpn / WORDS);
    FreshTableFlags(false, true, true);
  }

  lemma FaultPages(s: Sys, s1: Sys, s2: Sys, s': Sys, pid: int, vpn: int)
    requires SamePages(s, s1) && SameBut(s1, s2, pid, vpn) && SameBut(s2, s', pid, vpn)
    ensures SameBut(s, s', pid, vpn)
  {
    hide PageOf;
    ThenOne(s, s1, s2, pid, vpn);
    forall q, p {:trigger PageOf(s', q, p)} | Private(p) && (q, p) != (pid, vpn)
      ensures PageOf(s', q, p) == PageOf(s, q, p)
    {
      assert PageOf(s', q, p) == PageOf(s2, q, p);
    }
  }

  lemma StillAbsent(s: Sys, s1: Sys, pid: int, vpn: int)
    requires SysInv(s1) && SamePages(s, s1) && pid in s.dirs && Private(vpn) && PageOf(s, pid, vpn) == Absent
    ensures !Present(PteOf(s1, pid, vpn))
  {
    LeafPage(s1, pid, vpn);
    assert PageOf(s1, pid, vpn) == PageOf(s, pid, vpn);
  }

  lemma MappedRole(s: Sys, pid: int, vpn: int, f: int, global: bool, write: bool, user: bool)
    requires SysInv(s) && pid in s.dirs && Private(vpn) && MapPage(s, pid, vpn, f, global, write, user).Done?
    ensures var s' := MapPage(s, pid, vpn, f, global, write, user).value; f in s'.roles && s'.roles[f] == Leaf(pid, vpn)
  {
    DirReady(s, pid, vpn);
  }

  lemma FaultKeeps(o: Os, files: Files, pid: int, va: nat)
    requires OsInv(o) && Enabled(o, Fault(pid, va))
    ensures DoFault(o, files, pid, va).Done? ==> OsInv(DoFault(o, files, pid, va).value)
  {
    hide SysInv, V.Inv, PageOf, PdeOf, V.EntryPages, V.Find, Fill, DirSet, UserOnly, DoFault;
    var v := o.vmes[pid];
    FaultNothing(o, files, pid, va);
    if DoFault(o, files, pid, va).Done? && V.Find(v.entries, va) < |v.entries| {
      FaultAdds(o, files, pid, va);
      var o' := DoFault(o, files, pid, va).value;
      assert GoodSpace(o.sys, pid, v);
      VP.FindIsExact(v, va);
      OnePageMore(o.sys, o'.sys, pid, v, va / PAGE);
      ButIsOthers(o.sys, o'.sys, pid, va / PAGE);
      UserMore(o.sys, o'.sys, pid, va / PAGE);
      OneProcess(o, o'.sys, pid, v);
      assert o.vmes[pid := v] == o.vmes;
    }
  }

  lemma FaultNothing(o: Os, files: Files, pid: int, va: nat)
    requires OsInv(o) && Enabled(o, Fault(pid, va))
    ensures V.Find(o.vmes[pid].entries, va) == |o.vmes[pid].entries| ==> DoFault(o, files, pid, va) == Done(o)
  {
  }

  lemma UserMore(s: Sys, s': Sys, pid: int, vpn: int)
    requires UserOnly(s, pid) && SameBut(s, s', pid, vpn) && DirSet(s, s', pid, vpn / WORDS, USERWORD)
    requires PageOf(s', pid, vpn).Mapping? ==> PageOf(s', pid, vpn).flags == USERWORD
    ensures UserOnly(s', pid) && OtherDirs(s, s', pid)
  {
    hide PageOf, PdeOf;
    forall p {:trigger PageOf(s', pid, p)} | Private(p) && PageOf(s', pid, p).Mapping?
      ensures PageOf(s', pid, p).flags == USERWORD
    {
      assert p != vpn ==> PageOf(s', pid, p) == PageOf(s, pid, p);
    }
    forall i {:trigger PdeOf(s', pid, i)} | pid in s'.dirs && FIRST <= i < LAST && Present(PdeOf(s', pid, i))
      ensures Flags(PdeOf(s', pid, i)) == USERWORD
    {
      assert i != vpn / WORDS ==> PdeOf(s', pid, i) == PdeOf(s, pid, i);
    }
  }

  lemma OnePageMore(s: Sys, s': Sys, pid: int, v: V.Vme, vpn: int)
    requires Covered(s, pid, v) && SameBut(s, s', pid, vpn) && vpn in V.EntryPages(v.entries)
    ensures Covered(s', pid, v)
  {
    hide PageOf, V.EntryPages;
    forall p {:trigger PageOf(s', pid, p)} | Private(p) && PageOf(s', pid, p).Mapping?
      ensures p in V.EntryPages(v.entries)
    {
      assert p != vpn ==> PageOf(s', pid, p) == PageOf(s, pid, p);
    }
  }

  /** What the process reads there afterwards: the file's bytes as promised, zeros elsewhere. */
  lemma FaultShowsFile(o: Os, files: Files, pid: int, va: nat, j: nat)
    requires OsInv(o) && Enabled(o, Fault(pid, va)) && DoFault(o, files, pid, va).Done? && j < PAGE
    requires V.Find(o.vmes[pid].entries, va) < |o.vmes[pid].entries|
    requires var e := o.vmes[pid].entries[V.Find(o.vmes[pid].entries, va)];
             e.offset + F.PageOffset(e, va) < U32
    ensures var page := PageOf(DoFault(o, files, pid, va).value.sys, pid, va / PAGE);
            var e := o.vmes[pid].entries[V.Find(o.vmes[pid].entries, va)];
            && page.Mapping? && |page.words| == WORDS
            && B.Load(page.words, j) == F.Promised(Contents(files, e.file), e, va, j)
  {
    hide SysInv, PageOf, V.Inv, V.EntryPages, Contents, UserOnly, DirSet, DoFault;
    FaultAdds(o, files, pid, va);
    var v := o.vmes[pid];
    var k := V.Find(v.entries, va);
    VP.FindFirst(v.entries, va);
    assert GoodSpace(o.sys, pid, v);
    F.EntryIsSound(v, k, va);
    NoContents(files);
    B.ZeroByte(j % 4);
    if !v.entries[k].file.NoFile? {
      ContentsAreBytes(files, v.entries[k].file);
      F.FaultLoads(Contents(files, v.entries[k].file), v.entries[k], va, j);
    }
  }

  // ---------- fork, exec, spawn, store ----------

  ghost function DoFork(o: Os, par: int, ch: int): Maybe<Os>
    requires OsInv(o) && par in o.vmes && ch !in o.vmes
  {
    match ForkSpace(o.sys, par, ch)
    case Panic => Panic
    case Done(s) => Done(Os(s, o.vmes[ch := o.vmes[par]]))
  }

  lemma ForkKeeps(o: Os, par: int, ch: int)
    requires OsInv(o) && par in o.vmes && ch !in o.vmes
    ensures DoFork(o, par, ch).Done? ==> OsInv(DoFork(o, par, ch).value)
  {
    hide SysInv, V.Inv, PageOf, PdeOf, V.EntryPages, GoodSpace, DirFlags, ForkSpace;
    ForkCopies(o.sys, par, ch);
    if ForkSpace(o.sys, par, ch).Done? {
      var s', v := ForkSpace(o.sys, par, ch).value, o.vmes[par];
      assert GoodSpace(o.sys, par, v);
      ForkGood(o.sys, s', par, ch, v);
      OneProcess(o, s', ch, v);
    }
  }

  lemma ForkGood(s: Sys, s': Sys, par: int, ch: int, v: V.Vme)
    requires par in s.dirs && ch in s'.dirs && GoodSpace(s, par, v)
    requires forall p {:trigger PageOf(s', ch, p)} :: Private(p) ==> PageOf(s', ch, p) == PageOf(s, par, p)
    requires forall i {:trigger DirFlags(s', ch, i)} :: FIRST <= i < LAST ==> DirFlags(s', ch, i) == DirFlags(s, par, i)
    ensures GoodSpace(s', ch, v)
  {
    hide V.Inv, V.EntryPages, PageOf, PdeOf;
    forall p {:trigger PageOf(s', ch, p)} | Private(p) && PageOf(s', ch, p).Mapping?
      ensures p in V.EntryPages(v.entries) && PageOf(s', ch, p).flags == USERWORD
    {
      assert PageOf(s', ch, p) == PageOf(s, par, p);
    }
    forall i {:trigger PdeOf(s', ch, i)} | FIRST <= i < LAST && Present(PdeOf(s', ch, i))
      ensures Flags(PdeOf(s', ch, i)) == USERWORD
    {
      PresentFlags(PdeOf(s', ch, i));
      assert DirFlags(s', ch, i) == DirFlags(s, par, i);
    }
  }

  ghost function DoExec(o: Os, pid: int): Os
    requires OsInv(o) && pid in o.vmes
  {
    assert GoodSpace(o.sys, pid, o.vmes[pid]);
    Os(ClearSpace(o.sys, pid, o.vmes[pid]), o.vmes[pid := FreshVme()])
  }

  lemma FreshGood(s: Sys, pid: int)
    requires NoSpace(s, pid)
    ensures GoodSpace(s, pid, FreshVme())
  {
    hide PageOf, PdeOf;
    assert forall p :: !V.IsPage(BASE, 0, p);
    assert V.Inv(FreshVme());
  }

  lemma ExecKeeps(o: Os, pid: int)
    requires OsInv(o) && pid in o.vmes
    ensures OsInv(DoExec(o, pid))
  {
    hide SysInv, V.Inv, PageOf, ClearSpace, GoodSpace;
    assert GoodSpace(o.sys, pid, o.vmes[pid]);
    ExecReturnsEverything(o.sys, pid, o.vmes[pid]);
    var s' := ClearSpace(o.sys, pid, o.vmes[pid]);
    FreshGood(s', pid);
    OneProcess(o, s', pid, FreshVme());
  }

  ghost function DoSpawn(o: Os, pid: int): Maybe<Os>
    requires OsInv(o) && pid !in o.vmes
  {
    NewDirectoryStep(o.sys, pid);
    match NewDirectory(o.sys, pid)
    case Panic => Panic
    case Done(s) => Done(Os(s, o.vmes[pid := FreshVme()]))
  }

  lemma SpawnKeeps(o: Os, pid: int)
    requires OsInv(o) && pid !in o.vmes
    ensures DoSpawn(o, pid).Done? ==> OsInv(DoSpawn(o, pid).value)
  {
    hide SysInv, V.Inv, PageOf, GoodSpace;
    NewDirectoryStep(o.sys, pid);
    if NewDirectory(o.sys, pid).Done? {
      var s' := NewDirectory(o.sys, pid).value;
      FreshGood(s', pid);
      OneProcess(o, s', pid, FreshVme());
    }
  }

  ghost function DoStore(o: Os, pid: int, vpn: int, k: nat, word: int): Os
    requires OsInv(o) && Enabled(o, Store(pid, vpn, k, word))
  {
    StoreIsIsolated(o.sys, pid, vpn, k, word);
    o.(sys := UserStore(o.sys, pid, vpn, k, word))
  }

  lemma StoreKeeps(o: Os, pid: int, vpn: int, k: nat, word: int)
    requires OsInv(o) && Enabled(o, Store(pid, vpn, k, word))
    ensures OsInv(DoStore(o, pid, vpn, k, word))
  {
    hide SysInv, V.Inv, V.EntryPages, UserStore, UserOnly;
    StoreIsIsolated(o.sys, pid, vpn, k, word);
    var s', v := UserStore(o.sys, pid, vpn, k, word), o.vmes[pid];
    assert GoodSpace(o.sys, pid, v);
    assert PageOf(o.sys, pid, vpn).Mapping?;
    OnePageMore(o.sys, s', pid, v, vpn);
    ButIsOthers(o.sys, s', pid, vpn);
    StoreDirs(o.sys, pid, vpn, k, word);
    StoreUser(o.sys, s', pid, vpn);
    OneProcess(o, s', pid, v);
    assert o.vmes[pid := v] == o.vmes;
  }

  lemma StoreDirs(s: Sys, pid: int, vpn: int, k: nat, word: int)
    requires SysInv(s) && Private(vpn) && PageOf(s, pid, vpn).Mapping? && k < |PageOf(s, pid, vpn).words|
    ensures SameDirs(s, UserStore(s, pid, vpn, k, word))
  {
    var f := FrameOf(PteOf(s, pid, vpn));
    assert Owned(s, Leaf(pid, vpn));
    DirsStay(s, UserStore(s, pid, vpn, k, word), f);
  }

  lemma StoreUser(s: Sys, s': Sys, pid: int, vpn: int)
    requires UserOnly(s, pid) && SameDirs(s, s') && SameBut(s, s', pid, vpn) && Private(vpn)
    requires PageOf(s, pid, vpn).Mapping? && PageOf(s', pid, vpn).Mapping? && PageOf(s', pid, vpn).flags == PageOf(s, pid, vpn).flags
    ensures UserOnly(s', pid) && OtherDirs(s, s', pid)
  {
    hide PageOf, PdeOf;
    forall p {:trigger PageOf(s', pid, p)} | Private(p) && PageOf(s', pid, p).Mapping?
      ensures PageOf(s', pid, p).flags == USERWORD
    {
      assert p != vpn ==> PageOf(s', pid, p) == PageOf(s, pid, p);
      assert PageOf(s, pid, p).Mapping?;
    }
    UserStays(s, s', pid);
  }

  // ---------- runs ----------

  /** A step is fine, stops the kernel for want of frames, or is an mmap whose 32-bit sum wraps: the source goes on with a
      range allocator that gives out pages twice, and the theorems end there. */
  datatype Outcome = Fine(value: Os) | NoFrames | Overrun(value: Os)

  function From(r: Maybe<Os>): Outcome {
    match r
    case Panic => NoFrames
    case Done(o) => Fine(o)
  }

  ghost function Apply(o: Os, files: Files, t: Step): Outcome
    requires OsInv(o) && Enabled(o, t)
  {
    match t
    case Spawn(pid) => From(DoSpawn(o, pid))
    case Mmap(pid, size, file, offset, user) =>
      var o' := DoMmap(o, pid, size, file, offset, user);
      if VP.NoOverrun(o.vmes[pid], size) then Fine(o') else Overrun(o')
    case Munmap(pid, va, user) => Fine(DoMunmap(o, pid, va, user))
    case Fault(pid, va) => From(DoFault(o, files, pid, va))
    case Store(pid, vpn, k, word) => Fine(DoStore(o, pid, vpn, k, word))
    case Fork(pid, child) => From(DoFork(o, pid, child))
    case Exec(pid) => Fine(DoExec(o, pid))
  }

  /** Every step keeps the combined invariant, unless it stops the kernel for want of frames or is an mmap that wraps; and
      that always breaks it. */
  lemma StepKeeps(o: Os, files: Files, t: Step)
    requires OsInv(o) && Enabled(o, t)
    ensures Apply(o, files, t).Fine? ==> OsInv(Apply(o, files, t).value)
    ensures Apply(o, files, t).Overrun? ==> t.Mmap? && !OsInv(Apply(o, files, t).value)
  {
    hide OsInv, DoMmap, DoMunmap, DoFault, DoStore, DoFork, DoExec, DoSpawn, VP.NoOverrun, PageOf;
    match t
    case Spawn(pid) => SpawnKeeps(o, pid);
    case Mmap(pid, size, file, offset, user) => MmapKeepsIff(o, pid, size, file, offset, user);
    case Munmap(pid, va, user) => MunmapKeeps(o, pid, va, user);
    case Fault(pid, va) => FaultKeeps(o, files, pid, va);
    case Store(pid, vpn, k, word) => StoreKeeps(o, pid, vpn, k, word);
    case Fork(pid, child) => ForkKeeps(o, pid, child);
    case Exec(pid) => ExecKeeps(o, pid);
  }

  /** A run: steps that are not possible when their turn comes do not happen. */
  ghost function Run(o: Os, files: Files, steps: seq<Step>): Outcome
    requires OsInv(o)
    decreases |steps|
  {
    if steps == [] then Fine(o)
    else if !Enabled(o, steps[0]) then Run(o, files, steps[1..])
    else
      StepKeeps(o, files, steps[0]);
      match Apply(o, files, steps[0])
      case NoFrames => NoFrames
      case Overrun(o1) => Overrun(o1)
      case Fine(o1) => Run(o1, files, steps[1..])
  }

  lemma {:induction false} RunKeeps(o: Os, files: Files, steps: seq<Step>)
    requires OsInv(o)
    ensures Run(o, files, steps).Fine? ==> OsInv(Run(o, files, steps).value)
    ensures Run(o, files, steps).Overrun? ==> !OsInv(Run(o, files, steps).value)
    decreases |steps|
  {
    hide OsInv, Enabled, Apply;
    if steps != [] {
      if !Enabled(o, steps[0]) {
        RunKeeps(o, files, steps[1..]);
      } else {
        StepKeeps(o, files, steps[0]);
        if Apply(o, files, steps[0]).Fine? {
          RunKeeps(Apply(o, files, steps[0]).value, files, steps[1..]);
        }
      }
    }
  }

  /** In every state of every run each mapped private page has exactly one entry and is present, writable and user at both
      levels, and each frame found through page tables has exactly one place there and is not free. */
  lemma RunIsSafe(o: Os, files: Files, steps: seq<Step>, pid: int, va: nat, r1: Role, r2: Role)
    requires OsInv(o) && Run(o, files, steps).Fine?
    ensures var o' := Run(o, files, steps).value;
            && (pid in o'.vmes && Private(va / PAGE) && PageOf(o'.sys, pid, va / PAGE).Mapping? ==>
                  && (exists k :: OnlyEntry(o'.vmes[pid].entries, va, k))
                  && BitsOf(PageOf(o'.sys, pid, va / PAGE).dir) == Bits(true, true, true, false)
                  && BitsOf(PageOf(o'.sys, pid, va / PAGE).flags) == Bits(true, true, true, false))
            && (Spot(o'.sys, r1).At? ==> Spot(o'.sys, r1).frame !in o'.sys.free && (Spot(o'.sys, r1) == Spot(o'.sys, r2) ==> r1 == r2))
  {
    hide SysInv, GoodSpace, PageOf, Run, Spot, OnlyEntry, BitsOf;
    RunKeeps(o, files, steps);
    var o' := Run(o, files, steps).value;
    if pid in o'.vmes && Private(va / PAGE) && PageOf(o'.sys, pid, va / PAGE).Mapping? {
      MappedPageHasOneEntry(o', pid, va);
      SpaceOf(o', pid);
      UserWritable(o'.sys, pid, va / PAGE);
    }
    if Spot(o'.sys, r1).At? {
      ExactlyOneOwner(o'.sys, r1, r2);
    }
  }

  lemma SpaceOf(o: Os, pid: int)
    requires OsInv(o) && pid in o.vmes
    ensures UserOnly(o.sys, pid)
  {
    assert GoodSpace(o.sys, pid, o.vmes[pid]);
  }

  /** The state in which the first process starts: all frames handed out so far are the kernel's. */
  ghost predicate Boot(s: Sys) {
    && s.free == [] && s.dirs == map[] && Frames.Inv(s.phys, s.lo, s.free)
    && (forall f :: f in s.roles <==> s.lo <= f < s.phys.avail / PAGE)
    && (forall f :: f in s.roles ==> s.roles[f] == Kernel)
    && s.lo <= s.global < s.phys.avail / PAGE
    && (forall i {:trigger WordAt(s.phys.mem, s.global, i)} ::
          0 <= WordAt(s.phys.mem, s.global, i) && (FIRST <= i < LAST ==> WordAt(s.phys.mem, s.global, i) == 0))
  }

  lemma BootInv(s: Sys)
    requires Boot(s)
    ensures OsInv(Os(s, map[]))
  {
    assert forall r {:trigger Owned(s, r)} :: Owned(s, r);
    assert forall f {:trigger InUse(s, f)} :: InUse(s, f);
  }
}
