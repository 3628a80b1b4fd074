/** What each step of an address space leaves behind: the range allocator of the process that took it, those of all
    others, the pages, and when the kernel runs out of frames. */
module AddressSpaceEffects {
  import opened Basics
  import opened Frames
  import opened Paging
  import opened Ownership
  import opened OwnershipSteps
  import opened VmOps
  import opened VmFork
  import opened AddressSpaces
  import opened AddressSpaceRuns
  import opened FaultFill
  import V = VmeModel
  import VP = VmeProofs

  /** Every process but pid has the range allocator it had. */
  ghost predicate OthersKeep(o: Os, o': Os, pid: int) {
    (forall q {:trigger q in o'.vmes} :: q != pid ==> (q in o'.vmes <==> q in o.vmes)) && (forall q :: q in o.vmes && q != pid ==> o'.vmes[q] == o.vmes[q])
  }

  /** A range allocator that has given out nothing of 0x80000000 to 0xF0000000. */
  ghost predicate AllFree(v: V.Vme) {
    && v.entries == [] && v.free == [] && v.base == v.avail == 0x8000_0000 && v.limit == 0xF000_0000
    && (forall p {:trigger p in V.Available(v)} :: p in V.Available(v) <==> 0x80000 <= p < 0xF0000)
  }

  lemma NothingGiven(v: V.Vme)
    requires v == V.Vme(0x8000_0000, 0x8000_0000, 0xF000_0000, [], [])
    ensures AllFree(v)
  {
    forall p {:trigger p in V.Available(v)}
      ensures p in V.Available(v) <==> 0x80000 <= p < 0xF0000
    {
      assert p in V.Available(v) <==> V.IsPage(0x8000_0000, 0x70000, p);
    }
  }

  // ---------- exec and spawn ----------

  /** After exec the process has no entry, no page and no table of its own, every page of its range can be had again, all
      frames of its old pages and tables are on the free list, and no other process has changed. */
  lemma ExecStartsOver(o: Os, files: Files, pid: int)
    requires OsInv(o) && Enabled(o, Exec(pid))
    ensures Apply(o, files, Exec(pid)).Fine?
    ensures var o' := Apply(o, files, Exec(pid)).value;
            && pid in o'.vmes && AllFree(o'.vmes[pid]) && NoSpace(o'.sys, pid)
            && OthersKeep(o, o', pid) && SameOthers(o.sys, o'.sys, pid)
            && (forall f :: f in o.sys.roles && OfSpace(o.sys.roles[f], pid) ==> f in o'.sys.free && f !in o'.sys.roles)
            && (forall f :: f in o.sys.roles && !OfSpace(o.sys.roles[f], pid) ==> f in o'.sys.roles && o'.sys.roles[f] == o.sys.roles[f])
  {
    hide SysInv, GoodSpace, PageOf, PdeOf, ClearSpace, AllFree;
    assert GoodSpace(o.sys, pid, o.vmes[pid]);
    ExecReturnsEverything(o.sys, pid, o.vmes[pid]);
    NothingGiven(DoExec(o, pid).vmes[pid]);
  }

  /** The first mapping of the new program starts at 0x80000000. */
  lemma FirstAfterExec(o: Os, files: Files, pid: int, size: nat, file: V.File, offset: nat, user: bool)
    requires OsInv(o) && Enabled(o, Exec(pid)) && size <= 0x7000_0000
    ensures Apply(o, files, Exec(pid)).Fine? && pid in Apply(o, files, Exec(pid)).value.vmes
    ensures V.AddEntry(Apply(o, files, Exec(pid)).value.vmes[pid], size, file, offset, user).1 == 0x8000_0000
  {
    hide OsInv, Apply, Enabled, V.Available, OthersKeep, SameOthers, NoSpace;
    ExecStartsOver(o, files, pid);
  }

  /** A new process starts with everything free; the kernel stops exactly when there is no frame for its directory. */
  lemma SpawnStartsFree(o: Os, files: Files, pid: int)
    requires OsInv(o) && Enabled(o, Spawn(pid))
    ensures Apply(o, files, Spawn(pid)).NoFrames? <==> Room(o.sys) == 0
    ensures !Apply(o, files, Spawn(pid)).Overrun?
    ensures Apply(o, files, Spawn(pid)).Fine? ==>
              var o' := Apply(o, files, Spawn(pid)).value;
              && pid in o'.vmes && AllFree(o'.vmes[pid]) && NoSpace(o'.sys, pid)
              && OthersKeep(o, o', pid) && SameOthers(o.sys, o'.sys, pid)
  {
    hide SysInv, GoodSpace, PageOf, PdeOf, AllFree, Room, NewDirectory, NoSpace, SameOthers;
    NewDirectoryStep(o.sys, pid);
    if NewDirectory(o.sys, pid).Done? { NothingGiven(DoSpawn(o, pid).value.vmes[pid]); }
  }

  // ---------- mmap and munmap ----------

  /** mmap changes no memory and no other process.  Within the condition it is refused exactly when neither a free range nor
      the top has room, and then changes nothing; otherwise the process has one more entry, on pages it could have had. */
  lemma MmapAdds(o: Os, files: Files, pid: int, size: nat, file: V.File, offset: nat, user: bool)
    requires OsInv(o) && Enabled(o, Mmap(pid, size, file, offset, user))
    ensures var r := Apply(o, files, Mmap(pid, size, file, offset, user));
            && !r.NoFrames? && (r.Fine? <==> VP.NoOverrun(o.vmes[pid], size))
            && r.value.sys == o.sys && pid in r.value.vmes && OthersKeep(o, r.value, pid)
            && (r.Fine? ==>
                  var v, v' := o.vmes[pid], r.value.vmes[pid];
                  if (forall f :: f in v.free ==> f.pages < V.Required(size)) && v.avail + size > v.limit && V.Required(size) > 0
                  then v' == v
                  else exists va :: va > 0 && VP.Added(v, v', va, size, file, offset, user))
  {
    hide SysInv, PageOf, V.Inv, VP.Added, V.AddEntry, VP.NoOverrun, V.Required, Covered, UserOnly;
    assert GoodSpace(o.sys, pid, o.vmes[pid]);
    if VP.NoOverrun(o.vmes[pid], size) {
      VP.AddEntryResult(o.vmes[pid], size, file, offset, user);
      var va := V.AddEntry(o.vmes[pid], size, file, offset, user).1;
      assert va > 0 ==> VP.Added(o.vmes[pid], DoMmap(o, pid, size, file, offset, user).vmes[pid], va, size, file, offset, user);
    }
  }

  /** The entry covers va and the caller may remove it. */
  predicate Removable(e: V.Entry, va: nat, user: bool) {
    V.Covers(e, va) && (!user || e.user)
  }

  /** The entry remove_entry finds is the one that may be removed: there is at most one. */
  lemma RemovableIs(v: V.Vme, va: nat, user: bool, k: nat)
    requires V.Inv(v)
    ensures (forall i :: 0 <= i < |v.entries| ==> !Removable(v.entries[i], va, user)) <==> V.FindRemovable(v.entries, va, user) == |v.entries|
    ensures k < |v.entries| && Removable(v.entries[k], va, user) ==> V.FindRemovable(v.entries, va, user) == k
  {
    hide V.Inv, V.Covers;
    VP.FindRemovableFirst(v.entries, va, user);
    VP.FindIsExact(v, va);
    var j := V.FindRemovable(v.entries, va, user);
    if j < |v.entries| { assert Removable(v.entries[j], va, user); }
  }

  /** munmap of an address in no entry it may remove changes nothing.  Otherwise exactly that entry goes, its pages are
      unmapped and can be had again, and no other page and no other process has changed. */
  lemma MunmapRemoves(o: Os, files: Files, pid: int, va: nat, user: bool, k: nat)
    requires OsInv(o) && Enabled(o, Munmap(pid, va, user))
    ensures Apply(o, files, Munmap(pid, va, user)).Fine?
    ensures (forall i :: 0 <= i < |o.vmes[pid].entries| ==> !Removable(o.vmes[pid].entries[i], va, user)) ==>
              Apply(o, files, Munmap(pid, va, user)).value == o
    ensures k < |o.vmes[pid].entries| && Removable(o.vmes[pid].entries[k], va, user) ==>
              var o', v, e := Apply(o, files, Munmap(pid, va, user)).value, o.vmes[pid], o.vmes[pid].entries[k];
              && pid in o'.vmes && OthersKeep(o, o', pid)
              && o'.vmes[pid].entries == v.entries[..k] + v.entries[k + 1..]
              && V.Available(o'.vmes[pid]) == V.Available(v) + V.Pages(e.start, e.pages)
              && PagesGone(o.sys, o'.sys, pid, V.Pages(e.start, e.pages))
  {
    hide SysInv, V.Inv, PageOf, V.Covers, V.Available, V.Pages, PagesGone, UnmapEntry, Covered, UserOnly, Removable, V.FindRemovable;
    var v := o.vmes[pid];
    assert GoodSpace(o.sys, pid, v);
    var j := V.FindRemovable(v.entries, va, user);
    RemovableIs(v, va, user, k);
    if j < |v.entries| {
      VP.RemoveEntryResult(v, va, user);
      UnmapEntryStep(o.sys, pid, v, j);
    }
  }

  // ---------- fault, fork and store ----------

  /** A fault in no entry changes nothing; otherwise the kernel stops exactly when there is no frame for the page, or none
      for its table beside it. */
  lemma FaultNeeds(o: Os, files: Files, pid: int, va: nat)
    requires OsInv(o) && Enabled(o, Fault(pid, va))
    ensures !Apply(o, files, Fault(pid, va)).Overrun?
    ensures va / PAGE !in V.EntryPages(o.vmes[pid].entries) ==> Apply(o, files, Fault(pid, va)) == Fine(o)
    ensures va / PAGE in V.EntryPages(o.vmes[pid].entries) ==>
              (Apply(o, files, Fault(pid, va)).NoFrames? <==> Room(o.sys) < if Present(PdeOf(o.sys, pid, va / PAGE / WORDS)) then 1 else 2)
  {
    hide SysInv, PageOf, PdeOf, PteOf, V.Inv, V.EntryPages, V.Find, Room, DoAlloc, MapPage, Fill, Covered, UserOnly;
    var v, vpn := o.vmes[pid], va / PAGE;
    assert GoodSpace(o.sys, pid, v);
    VP.FindIsExact(v, va);
    AllocStep(o.sys);
    AllocRoom(o.sys);
    if V.Find(v.entries, va) < |v.entries| && DoAlloc(o.sys).Done? {
      var (s1, f) := DoAlloc(o.sys).value;
      DirsStay(o.sys, s1, f);
      StillAbsent(o.sys, s1, pid, vpn);
      MapPageStep(s1, pid, vpn, f, false, true, true);
      AllocStep(s1);
      AllocRoom(s1);
      assert PdeOf(s1, pid, vpn / WORDS) == PdeOf(o.sys, pid, vpn / WORDS);
    }
  }

  /** fork gives the child the parent's entries and free ranges, files and offsets included, and the parent's pages; the
      kernel stops exactly when there are fewer frames than the copy needs; no other process has changed. */
  lemma ForkDuplicates(o: Os, files: Files, par: int, ch: int)
    requires OsInv(o) && Enabled(o, Fork(par, ch))
    ensures !Apply(o, files, Fork(par, ch)).Overrun?
    ensures Apply(o, files, Fork(par, ch)).NoFrames? <==> Room(o.sys) < 1 + Needed(o.sys, par, FIRST)
    ensures Apply(o, files, Fork(par, ch)).Fine? ==>
              var o' := Apply(o, files, Fork(par, ch)).value;
              && ch in o'.vmes && o'.vmes[ch] == o.vmes[par] && OthersKeep(o, o', ch) && SameOthers(o.sys, o'.sys, ch)
              && (forall p {:trigger PageOf(o'.sys, ch, p)} :: Private(p) ==> PageOf(o'.sys, ch, p) == PageOf(o.sys, par, p))
  {
    hide SysInv, GoodSpace, PageOf, PdeOf, ForkSpace, Room, Needed, SameOthers;
    ForkCopies(o.sys, par, ch);
  }

  /** A store changes one word of one page of one process and no allocator. */
  lemma StoreWrites(o: Os, files: Files, pid: int, vpn: int, k: nat, word: int)
    requires OsInv(o) && Enabled(o, Store(pid, vpn, k, word))
    ensures Apply(o, files, Store(pid, vpn, k, word)).Fine? && k < |PageOf(o.sys, pid, vpn).words|
    ensures var o', page := Apply(o, files, Store(pid, vpn, k, word)).value, PageOf(o.sys, pid, vpn);
            && o'.vmes == o.vmes && SameBut(o.sys, o'.sys, pid, vpn)
            && PageOf(o'.sys, pid, vpn) == Mapping(page.dir, page.flags, page.words[k := word])
  {
    hide SysInv, GoodSpace, PageOf, UserStore, SameBut;
    StoreIsIsolated(o.sys, pid, vpn, k, word);
  }

  // ---------- processes leave each other alone ----------

  /** The process whose memory a step may change; a fork changes the child's. */
  function Actor(t: Step): int {
    match t
    case Fork(_, child) => child
    case _ => t.pid
  }

  /** Process q has the allocator and the private pages it had, words and flags alike. */
  ghost predicate Untouched(o: Os, o': Os, q: int) {
    && q in o.vmes && q in o'.vmes && o'.vmes[q] == o.vmes[q]
    && (forall p {:trigger PageOf(o'.sys, q, p)} :: Private(p) ==> PageOf(o'.sys, q, p) == PageOf(o.sys, q, p))
  }

  lemma IsUntouched(o: Os, o': Os, pid: int, q: int)
    requires q in o.vmes && q != pid && OthersKeep(o, o', pid)
    requires forall p {:trigger PageOf(o'.sys, q, p)} :: Private(p) ==> PageOf(o'.sys, q, p) == PageOf(o.sys, q, p)
    ensures Untouched(o, o', q)
  {
    hide PageOf;
    assert q in o'.vmes;
  }

  lemma StepSpares(o: Os, files: Files, t: Step, q: int)
    requires OsInv(o) && Enabled(o, t) && q in o.vmes && Actor(t) != q
    ensures Apply(o, files, t).Fine? ==> Untouched(o, Apply(o, files, t).value, q)
  {
    hide SysInv, OsInv, PageOf, Apply, AllFree, NoSpace, PagesGone, Enabled, VP.NoOverrun, VP.Added, V.Find, OfSpace;
    match t
    case Spawn(pid) => SpawnStartsFree(o, files, pid);
    case Mmap(pid, size, file, offset, user) => MmapAdds(o, files, pid, size, file, offset, user);
    case Munmap(pid, va, user) => MunmapSpares(o, files, pid, va, user, q);
    case Fault(pid, va) => FaultSpares(o, files, pid, va, q);
    case Store(pid, vpn, k, word) => StoreWrites(o, files, pid, vpn, k, word);
    case Fork(pid, child) => ForkDuplicates(o, files, pid, child);
    case Exec(pid) => ExecStartsOver(o, files, pid);
  }

  lemma MunmapSpares(o: Os, files: Files, pid: int, va: nat, user: bool, q: int)
    requires OsInv(o) && Enabled(o, Munmap(pid, va, user)) && q in o.vmes && pid != q
    ensures Apply(o, files, Munmap(pid, va, user)).Fine? && Untouched(o, Apply(o, files, Munmap(pid, va, user)).value, q)
  {
    hide OsInv, PageOf, Apply, Removable, V.Available, V.Pages, Fewer;
    var k := V.FindRemovable(o.vmes[pid].entries, va, user);
    MunmapRemoves(o, files, pid, va, user, k);
    NoRemovable(o, pid, va, user);
  }

  lemma NoRemovable(o: Os, pid: int, va: nat, user: bool)
    requires OsInv(o) && pid in o.vmes
    ensures var es := o.vmes[pid].entries;
            var k := V.FindRemovable(es, va, user);
            if k < |es| then Removable(es[k], va, user) else forall i :: 0 <= i < |es| ==> !Removable(es[i], va, user)
  {
    VP.FindRemovableFirst(o.vmes[pid].entries, va, user);
  }

  lemma FaultSpares(o: Os, files: Files, pid: int, va: nat, q: int)
    requires OsInv(o) && Enabled(o, Fault(pid, va)) && q in o.vmes && pid != q
    ensures Apply(o, files, Fault(pid, va)).Fine? ==> Untouched(o, Apply(o, files, Fault(pid, va)).value, q)
  {
    hide OsInv, PageOf, DoFault, V.Find, DirSet, Fill, SysInv;
    FaultNothing(o, files, pid, va);
    if DoFault(o, files, pid, va).Done? && V.Find(o.vmes[pid].entries, va) < |o.vmes[pid].entries| {
      FaultAdds(o, files, pid, va);
    }
  }

  /** Over any run, a process that takes no step itself keeps its allocator and every private page, whatever the other
      processes do, its own children included. */
  lemma {:induction false} RunSpares(o: Os, files: Files, steps: seq<Step>, q: int)
    requires OsInv(o) && q in o.vmes && forall i :: 0 <= i < |steps| ==> Actor(steps[i]) != q
    ensures Run(o, files, steps).Fine? ==> Untouched(o, Run(o, files, steps).value, q)
    decreases |steps|
  {
    hide OsInv, PageOf, Apply, Enabled;
    if steps != [] {
      if Enabled(o, steps[0]) {
        StepKeeps(o, files, steps[0]);
        StepSpares(o, files, steps[0], q);
        if Apply(o, files, steps[0]).Fine? {
          var o1 := Apply(o, files, steps[0]).value;
          RunSpares(o1, files, steps[1..], q);
          if Run(o, files, steps).Fine? { UntouchedTwice(o, o1, Run(o, files, steps).value, q); }
        }
      } else {
        RunSpares(o, files, steps[1..], q);
      }
    }
  }

  lemma UntouchedTwice(o: Os, o1: Os, o2: Os, q: int)
    requires Untouched(o, o1, q) && Untouched(o1, o2, q)
    ensures Untouched(o, o2, q)
  {
    hide PageOf;
    forall p {:trigger PageOf(o2.sys, q, p)} | Private(p)
      ensures PageOf(o2.sys, q, p) == PageOf(o.sys, q, p)
    {
      assert PageOf(o2.sys, q, p) == PageOf(o1.sys, q, p);
    }
  }
}
