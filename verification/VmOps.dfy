/** The operations of kernel/vmm.cc and the destructor in kernel/vme.cc on processes with owned frames. */
module VmOps {
  import opened Basics
  import opened Frames
  import opened Paging
  import opened Ownership
  import opened OwnershipSteps

  /** Private pages outside [from, to) of process pid, and all pages of the others, are the same in s'. */
  ghost predicate SameOutside(s: Sys, s': Sys, pid: int, from: int, to: int) {
    && s'.dirs == s.dirs && s'.global == s.global && s'.lo == s.lo
    && (forall q, v {:trigger PageOf(s', q, v)} :: Private(v) && !(q == pid && from <= v < to) ==> PageOf(s', q, v) == PageOf(s, q, v))
  }

  lemma OutsideTrans(s: Sys, s1: Sys, s2: Sys, pid: int, a: int, b: int, c: int)
    requires SameOutside(s, s1, pid, a, b) && SameOutside(s1, s2, pid, b, c) && a <= b <= c
    ensures SameOutside(s, s2, pid, a, c)
  {
    forall q, v {:trigger PageOf(s2, q, v)} | Private(v) && !(q == pid && a <= v < c)
      ensures PageOf(s2, q, v) == PageOf(s, q, v)
    {
      assert PageOf(s2, q, v) == PageOf(s1, q, v);
    }
  }

  // ---------- remove_mapping ----------

  predicate CanUnmap(s: Sys, pid: int, vpn: int) {
    && pid in s.dirs
    && (Present(PdeOf(s, pid, vpn / WORDS)) ==>
          && HasWord(s.phys, TableOf(s, pid, vpn), vpn % WORDS)
          && (Present(PteOf(s, pid, vpn)) ==>
                FrameOf(PteOf(s, pid, vpn)) in s.phys.mem && |s.phys.mem[FrameOf(PteOf(s, pid, vpn))]| == WORDS))
  }

  /** remove_mapping: free the frame, then clear the word. */
  function Unmap(s: Sys, pid: int, vpn: int): Sys
    requires CanUnmap(s, pid, vpn)
  {
    if !Present(PdeOf(s, pid, vpn / WORDS)) then s
    else if Present(PteOf(s, pid, vpn)) then
      var f := FrameOf(PteOf(s, pid, vpn));
      var s1 := DoFree(s, f);
      s1.(phys := SetWord(s1.phys, TableOf(s, pid, vpn), vpn % WORDS, 0))
    else DoSetPte(s, pid, vpn, 0)
  }

  lemma UnmapReady(s: Sys, pid: int, vpn: int)
    requires SysInv(s) && pid in s.dirs && Private(vpn)
    ensures CanUnmap(s, pid, vpn)
  {
    if HasTable(s, pid, vpn) {
      TableFrame(s, pid, vpn);
      if Present(PteOf(s, pid, vpn)) {
        assert Owned(s, Leaf(pid, vpn)) && InUse(s, FrameOf(PteOf(s, pid, vpn)));
      }
    }
  }

  /** Freeing the frame before or after the word is cleared comes to the same memory. */
  lemma FreeCommutes(s: Sys, pid: int, vpn: int, f: int)
    requires pid in s.dirs && HasWord(s.phys, TableOf(s, pid, vpn), vpn % WORDS) && f != TableOf(s, pid, vpn)
    requires f in s.phys.mem && |s.phys.mem[f]| == WORDS
    ensures var s1 := DoSetPte(s, pid, vpn, 0).(roles := s.roles[f := Held]);
            var s2 := DoFree(s, f);
            DoFree(s1, f) == s2.(phys := SetWord(s2.phys, TableOf(s, pid, vpn), vpn % WORDS, 0))
  {
    var t, k := TableOf(s, pid, vpn), vpn % WORDS;
    var a := s.phys.mem[t := s.phys.mem[t][k := 0]];
    var b := s.phys.mem[f := s.phys.mem[f][0 := s.phys.first]];
    assert a[f := a[f][0 := s.phys.first]] == b[t := b[t][k := 0]];
    assert s.roles[f := Held] - {f} == s.roles - {f};
  }

  /** remove_mapping takes exactly one page away and returns its frame. */
  lemma UnmapStep(s: Sys, pid: int, vpn: int)
    requires SysInv(s) && pid in s.dirs && Private(vpn)
    ensures CanUnmap(s, pid, vpn)
    ensures var s' := Unmap(s, pid, vpn);
            && SysInv(s') && SameBut(s, s', pid, vpn) && PageOf(s', pid, vpn) == Absent && SameDirs(s, s')
            && s'.phys.avail == s.phys.avail && Fewer(s, s', pid)
  {
    UnmapReady(s, pid, vpn);
    if HasTable(s, pid, vpn) {
      if Present(PteOf(s, pid, vpn)) {
        UnmapMapped(s, pid, vpn);
      } else {
        ClearPte(s, pid, vpn);
        DirsOfPte(s, pid, vpn, 0);
      }
    }
  }

  /** Roles change only by giving up tables and leaves of process pid. */
  ghost predicate Fewer(s: Sys, s': Sys, pid: int) {
    && (forall f {:trigger f in s'.roles} :: f in s'.roles ==> f in s.roles && s'.roles[f] == s.roles[f])
    && (forall f {:trigger f in s'.roles} :: f in s.roles && !OfSpace(s.roles[f], pid) ==> f in s'.roles)
  }

  predicate OfSpace(r: Role, pid: int) {
    (r.Table? || r.Leaf?) && r.pid == pid
  }

  lemma DirsOfPte(s: Sys, pid: int, vpn: int, w: int)
    requires SysInv(s) && HasTable(s, pid, vpn) && HasWord(s.phys, TableOf(s, pid, vpn), vpn % WORDS)
    ensures SameDirs(s, DoSetPte(s, pid, vpn, w))
  {
    var s' := DoSetPte(s, pid, vpn, w);
    forall q, i {:trigger PdeOf(s', q, i)} | q in s.dirs
      ensures PdeOf(s', q, i) == PdeOf(s, q, i)
    {
      SetPteWords(s, pid, vpn, w, q, 0);
    }
  }

  lemma UnmapMapped(s: Sys, pid: int, vpn: int)
    requires SysInv(s) && HasTable(s, pid, vpn) && Present(PteOf(s, pid, vpn)) && CanUnmap(s, pid, vpn)
    ensures var s' := Unmap(s, pid, vpn);
            && SysInv(s') && SameBut(s, s', pid, vpn) && PageOf(s', pid, vpn) == Absent && SameDirs(s, s')
            && s'.phys.avail == s.phys.avail && Fewer(s, s', pid)
  {
    TableFrame(s, pid, vpn);
    var f := FrameOf(PteOf(s, pid, vpn));
    UnlinkLeaf(s, pid, vpn);
    FreeCommutes(s, pid, vpn, f);
    DirsOfPte(s, pid, vpn, 0);
    var s0 := DoSetPte(s, pid, vpn, 0);
    var s1 := s0.(roles := s.roles[f := Held]);
    hide SysInv, PteOf, PdeOf;
    RolesInvisible(s0, s1);
    FreeStep(s1, f);
    DirsStay(s1, DoFree(s1, f), f);
    SamePagesThen(s, s1, DoFree(s1, f), pid, vpn);
  }

  lemma SamePagesThen(s: Sys, s1: Sys, s2: Sys, pid: int, vpn: int)
    requires SameBut(s, s1, pid, vpn) && SamePages(s1, s2)
    ensures SameBut(s, s2, pid, vpn)
  {
    forall q, v {:trigger PageOf(s2, q, v)} | Private(v) && (q, v) != (pid, vpn)
      ensures PageOf(s2, q, v) == PageOf(s, q, v)
    {
      assert PageOf(s2, q, v) == PageOf(s1, q, v);
    }
  }

  /** Unmap is remove_mapping on the memory. */
  lemma UnmapIsRemoveMapping(s: Sys, pid: int, vpn: int)
    requires SysInv(s) && pid in s.dirs && Private(vpn)
    ensures CanUnmap(s, pid, vpn) && DirOk(s.phys, s.dirs[pid], vpn) && LeafOk(s.phys, s.dirs[pid], vpn)
    ensures Unmap(s, pid, vpn).phys == RemoveMapping(s.phys, s.dirs[pid], vpn)
  {
    UnmapReady(s, pid, vpn);
    DirReady(s, pid, vpn);
  }

  lemma DirReady(s: Sys, pid: int, vpn: int)
    requires SysInv(s) && pid in s.dirs && Private(vpn)
    ensures DirOk(s.phys, s.dirs[pid], vpn)
  {
    DirFrame(s, pid);
    AllocStep(s);
    assert GoodPde(s, pid, vpn / WORDS);
    if HasTable(s, pid, vpn) { TableFrame(s, pid, vpn); }
  }

  // ---------- ~VMEEntry ----------

  predicate InRange(vpn: int, n: nat) {
    FIRST * WORDS <= vpn && vpn + n <= LAST * WORDS
  }

  /** The destructor of an entry: remove_mapping for each of its pages. */
  ghost function UnmapRange(s: Sys, pid: int, vpn: int, n: nat): Sys
    requires SysInv(s) && pid in s.dirs && InRange(vpn, n)
    decreases n
  {
    if n == 0 then s
    else
      UnmapStep(s, pid, vpn);
      UnmapRange(Unmap(s, pid, vpn), pid, vpn + 1, n - 1)
  }

  lemma {:induction false} UnmapRangeStep(s: Sys, pid: int, vpn: int, n: nat)
    requires SysInv(s) && pid in s.dirs && InRange(vpn, n)
    ensures var s' := UnmapRange(s, pid, vpn, n);
            && SysInv(s') && SameOutside(s, s', pid, vpn, vpn + n) && SameDirs(s, s')
            && (forall v {:trigger PageOf(s', pid, v)} :: vpn <= v < vpn + n ==> PageOf(s', pid, v) == Absent)
            && s'.phys.avail == s.phys.avail && Fewer(s, s', pid)
    decreases n
  {
    hide SysInv, PageOf;
    if n > 0 {
      UnmapStep(s, pid, vpn);
      var s1 := Unmap(s, pid, vpn);
      UnmapRangeStep(s1, pid, vpn + 1, n - 1);
      OutsideTrans(s, s1, UnmapRange(s, pid, vpn, n), pid, vpn, vpn + 1, vpn + n);
      assert PageOf(UnmapRange(s, pid, vpn, n), pid, vpn) == PageOf(s1, pid, vpn);
    }
  }

  // ---------- remove_PT_mapping ----------

  /** remove_PT_mapping: free the table, then clear the directory word. */
  ghost function DropTable(s: Sys, pid: int, i: int): Sys
    requires SysInv(s) && pid in s.dirs && FIRST <= i < LAST
  {
    DirFrame(s, pid);
    if !Present(PdeOf(s, pid, i)) then s
    else
      assert Owned(s, Table(pid, i)) && InUse(s, FrameOf(PdeOf(s, pid, i)));
      var s1 := DoFree(s, FrameOf(PdeOf(s, pid, i)));
      s1.(phys := SetWord(s1.phys, s.dirs[pid], i, 0))
  }

  lemma DropCommutes(s: Sys, pid: int, i: int, f: int)
    requires pid in s.dirs && HasWord(s.phys, s.dirs[pid], i) && f != s.dirs[pid] && f in s.phys.mem && |s.phys.mem[f]| == WORDS
    ensures var s1 := DoSetPde(s, pid, i, 0).(roles := s.roles[f := Held]);
            var s2 := DoFree(s, f);
            DoFree(s1, f) == s2.(phys := SetWord(s2.phys, s.dirs[pid], i, 0))
  {
    var d := s.dirs[pid];
    var a := s.phys.mem[d := s.phys.mem[d][i := 0]];
    var b := s.phys.mem[f := s.phys.mem[f][0 := s.phys.first]];
    assert a[f := a[f][0 := s.phys.first]] == b[d := b[d][i := 0]];
    assert s.roles[f := Held] - {f} == s.roles - {f};
  }

  lemma DropTableStep(s: Sys, pid: int, i: int)
    requires SysInv(s) && pid in s.dirs && FIRST <= i < LAST && EmptyTable(s, pid, i)
    ensures var s' := DropTable(s, pid, i);
            && SysInv(s') && SamePages(s, s') && s'.phys.avail == s.phys.avail && Fewer(s, s', pid) && OtherDirs(s, s', pid)
            && !Present(PdeOf(s', pid, i))
            && (forall j :: j != i ==> PdeOf(s', pid, j) == PdeOf(s, pid, j))
  {
    DirFrame(s, pid);
    if Present(PdeOf(s, pid, i)) {
      var f := FrameOf(PdeOf(s, pid, i));
      assert Owned(s, Table(pid, i)) && InUse(s, f);
      UnlinkTable(s, pid, i);
      DropCommutes(s, pid, i, f);
      var s1 := DoSetPde(s, pid, i, 0).(roles := s.roles[f := Held]);
      hide SysInv, PteOf, PdeOf, Frames.Inv, EmptyTable;
      FreeStep(s1, f);
      DirsStay(s1, DoFree(s1, f), f);
      PagesTrans(s, s1, DoFree(s1, f));
      OtherThenSame(s, s1, DoFree(s1, f), pid);
    }
  }

  lemma OtherThenSame(s: Sys, s1: Sys, s2: Sys, pid: int)
    requires OtherDirs(s, s1, pid) && SameDirs(s1, s2) && s1.dirs == s.dirs
    ensures OtherDirs(s, s2, pid)
  {
    forall q, i {:trigger PdeOf(s2, q, i)} | q != pid && q in s.dirs && q in s2.dirs
      ensures PdeOf(s2, q, i) == PdeOf(s, q, i)
    {
      assert PdeOf(s2, q, i) == PdeOf(s1, q, i);
    }
  }

  lemma OtherDirsTrans(s: Sys, s1: Sys, s2: Sys, pid: int)
    requires OtherDirs(s, s1, pid) && OtherDirs(s1, s2, pid) && forall q :: q != pid && q in s.dirs ==> q in s1.dirs
    ensures OtherDirs(s, s2, pid)
  {
    forall q, i {:trigger PdeOf(s2, q, i)} | q != pid && q in s.dirs && q in s2.dirs
      ensures PdeOf(s2, q, i) == PdeOf(s, q, i)
    {
      assert PdeOf(s2, q, i) == PdeOf(s1, q, i);
    }
  }

  lemma PagesTrans(s: Sys, s1: Sys, s2: Sys)
    requires SamePages(s, s1) && SamePages(s1, s2)
    ensures SamePages(s, s2)
  {
    forall q, v {:trigger PageOf(s2, q, v)} | Private(v)
      ensures PageOf(s2, q, v) == PageOf(s, q, v)
    {
      assert PageOf(s2, q, v) == PageOf(s1, q, v);
    }
  }

  /** No private page of the process is mapped. */
  ghost predicate NothingMapped(s: Sys, pid: int) {
    forall v {:trigger PageOf(s, pid, v)} :: Private(v) ==> PageOf(s, pid, v) == Absent
  }

  /** A private page word is present exactly when the process sees a page. */
  lemma LeafPage(s: Sys, pid: int, vpn: int)
    requires SysInv(s) && pid in s.dirs && Private(vpn)
    ensures Present(PteOf(s, pid, vpn)) <==> PageOf(s, pid, vpn).Mapping?
  {
    assert Owned(s, Leaf(pid, vpn));
    assert InUse(s, FrameOf(PteOf(s, pid, vpn)));
  }

  lemma EmptyWhenUnmapped(s: Sys, pid: int, i: int)
    requires SysInv(s) && pid in s.dirs && FIRST <= i < LAST && NothingMapped(s, pid)
    ensures EmptyTable(s, pid, i)
  {
    forall vpn {:trigger PteOf(s, pid, vpn)} | vpn / WORDS == i
      ensures !Present(PteOf(s, pid, vpn))
    {
      LeafPage(s, pid, vpn);
    }
  }

  /** The loop of exec over the directory. */
  ghost function DropTables(s: Sys, pid: int, i: int): Sys
    requires SysInv(s) && pid in s.dirs && FIRST <= i <= LAST && NothingMapped(s, pid)
    decreases LAST - i
  {
    if i == LAST then s
    else
      EmptyWhenUnmapped(s, pid, i);
      DropTableStep(s, pid, i);
      NothingStays(s, DropTable(s, pid, i), pid);
      DropTables(DropTable(s, pid, i), pid, i + 1)
  }

  lemma NothingStays(s: Sys, s': Sys, pid: int)
    requires NothingMapped(s, pid) && SamePages(s, s')
    ensures NothingMapped(s', pid)
  {
    forall v {:trigger PageOf(s', pid, v)} | Private(v)
      ensures PageOf(s', pid, v) == Absent
    {
      assert PageOf(s', pid, v) == PageOf(s, pid, v);
    }
  }

  lemma {:induction false} DropTablesStep(s: Sys, pid: int, i: int)
    requires SysInv(s) && pid in s.dirs && FIRST <= i <= LAST && NothingMapped(s, pid)
    ensures var s' := DropTables(s, pid, i);
            && SysInv(s') && SamePages(s, s') && s'.phys.avail == s.phys.avail && Fewer(s, s', pid) && OtherDirs(s, s', pid)
            && (forall j {:trigger PdeOf(s', pid, j)} :: i <= j < LAST ==> !Present(PdeOf(s', pid, j)))
            && (forall j {:trigger PdeOf(s', pid, j)} :: j < i ==> PdeOf(s', pid, j) == PdeOf(s, pid, j))
    decreases LAST - i
  {
    hide SysInv, PageOf, PdeOf, EmptyTable;
    if i < LAST {
      EmptyWhenUnmapped(s, pid, i);
      DropTableStep(s, pid, i);
      var s1 := DropTable(s, pid, i);
      NothingStays(s, s1, pid);
      DropTablesStep(s1, pid, i + 1);
      PagesTrans(s, s1, DropTables(s, pid, i));
      OtherDirsTrans(s, s1, DropTables(s, pid, i), pid);
    }
  }

  /** Process pid owns neither tables nor leaves. */
  ghost predicate NoSpace(s: Sys, pid: int) {
    && pid in s.dirs && NothingMapped(s, pid)
    && (forall j {:trigger PdeOf(s, pid, j)} :: FIRST <= j < LAST ==> !Present(PdeOf(s, pid, j)))
  }

  lemma SpaceGone(s: Sys, pid: int, r: Role)
    requires SysInv(s) && NoSpace(s, pid) && OfSpace(r, pid)
    ensures Spot(s, r) == Nowhere
  {
    if r.Leaf? && Private(r.vpn) {
      LeafPage(s, pid, r.vpn);
    }
  }

  /** When the space is gone, every frame it owned is on the free list. */
  lemma AllReturned(s: Sys, s': Sys, pid: int, f: int)
    requires SysInv(s) && SysInv(s') && Fewer(s, s', pid) && s'.phys.avail == s.phys.avail && s'.lo == s.lo
    requires NoSpace(s', pid) && f in s.roles && OfSpace(s.roles[f], pid)
    ensures f in s'.free && f !in s'.roles
  {
    assert InUse(s, f) && InUse(s', f) && RoleOk(s', f);
    SpaceGone(s', pid, s.roles[f]);
  }

  // ---------- add_mapping ----------

  /** add_mapping for a private page: link a table if there is none, then the leaf. */
  ghost function MapPage(s: Sys, pid: int, vpn: int, f: int, global: bool, write: bool, user: bool): Maybe<Sys>
    requires SysInv(s) && pid in s.dirs && Private(vpn)
  {
    DirReady(s, pid, vpn);
    match AddMapping(s.phys, s.dirs[pid], vpn, if f < 0 then 0 else f, global, write, user)
    case Panic => Panic
    case Done(p) =>
      var e := PdeOf(s, pid, vpn / WORDS);
      if Present(e) then Done(s.(phys := p, roles := s.roles[f := Leaf(pid, vpn)]))
      else Done(s.(phys := p, free := NextFree(s.free),
                   roles := s.roles[NextFrame(s) := Table(pid, vpn / WORDS)][f := Leaf(pid, vpn)]))
  }

  /** The frame the next allocation hands out. */
  function NextFrame(s: Sys): int {
    if s.phys.first != 0 then s.phys.first / PAGE else s.phys.avail / PAGE
  }

  /** The flags of the directory word after add_mapping: those it had, or the requested ones on a new table. */
  function MapDir(s: Sys, pid: int, i: int, global: bool, write: bool, user: bool): int
    requires pid in s.dirs
  {
    if Present(PdeOf(s, pid, i)) then Flags(PdeOf(s, pid, i)) else TableFlags(0, global, write, user)
  }

  /** Only directory word i of process pid may differ, and its flags are as given. */
  ghost predicate DirSet(s: Sys, s': Sys, pid: int, i: int, flags: int) {
    && pid in s.dirs && s'.dirs == s.dirs && OtherDirs(s, s', pid)
    && (forall j {:trigger PdeOf(s', pid, j)} :: j != i ==> PdeOf(s', pid, j) == PdeOf(s, pid, j))
    && Present(PdeOf(s', pid, i)) && Flags(PdeOf(s', pid, i)) == flags
  }

  lemma HeldFrame(s: Sys, f: int)
    requires SysInv(s) && f in s.roles
    ensures 0 <= f && f in s.phys.mem && |s.phys.mem[f]| == WORDS
  {
    assert InUse(s, f);
  }

  /** Mapping a held frame at an unmapped page whose table exists. */
  lemma MapInTable(s: Sys, pid: int, vpn: int, f: int, global: bool, write: bool, user: bool)
    requires SysInv(s) && HasTable(s, pid, vpn) && !Present(PteOf(s, pid, vpn)) && f in s.roles && s.roles[f] == Held
    ensures MapPage(s, pid, vpn, f, global, write, user).Done? && f in s.phys.mem
    ensures var s' := MapPage(s, pid, vpn, f, global, write, user).value;
            && SysInv(s') && SameBut(s, s', pid, vpn) && SameDirs(s, s')
            && PageOf(s', pid, vpn) == Mapping(Flags(PdeOf(s, pid, vpn / WORDS)), MapFlags(global, write, user), s.phys.mem[f])
  {
    hide SysInv, Frames.Inv, PageOf;
    HeldFrame(s, f);
    DirReady(s, pid, vpn);
    TableFrame(s, pid, vpn);
    var flags := MapFlags(global, write, user);
    LinkLeaf(s, pid, vpn, f, flags);
    assert LeafWord(f, global, write, user) == PAGE * f + flags;
    DirsOfPte(s, pid, vpn, PAGE * f + flags);
    RolesInvisible(DoSetPte(s, pid, vpn, PAGE * f + flags), MapPage(s, pid, vpn, f, global, write, user).value);
  }

  /** Mapping a held frame at an unmapped page: panics only when a table is needed and no frame is left. */
  lemma MapPageStep(s: Sys, pid: int, vpn: int, f: int, global: bool, write: bool, user: bool)
    requires SysInv(s) && pid in s.dirs && Private(vpn) && !Present(PteOf(s, pid, vpn)) && f in s.roles && s.roles[f] == Held
    ensures f in s.phys.mem
    ensures MapPage(s, pid, vpn, f, global, write, user).Panic? <==>
              !Present(PdeOf(s, pid, vpn / WORDS)) && s.free == [] && s.phys.avail == s.phys.limit
    ensures MapPage(s, pid, vpn, f, global, write, user).Done? ==>
              var s' := MapPage(s, pid, vpn, f, global, write, user).value;
              && SysInv(s') && SameBut(s, s', pid, vpn) && DirSet(s, s', pid, vpn / WORDS, MapDir(s, pid, vpn / WORDS, global, write, user))
              && PageOf(s', pid, vpn) == Mapping(MapDir(s, pid, vpn / WORDS, global, write, user), MapFlags(global, write, user), s.phys.mem[f])
  {
    assert InUse(s, f);
    if HasTable(s, pid, vpn) {
      MapInTable(s, pid, vpn, f, global, write, user);
    } else {
      DirReady(s, pid, vpn);
      AllocStep(s);
      if DoAlloc(s).Done? {
        MapWithNewTable(s, pid, vpn, f, global, write, user);
      }
    }
  }

  lemma MapWithNewTable(s: Sys, pid: int, vpn: int, f: int, global: bool, write: bool, user: bool)
    requires SysInv(s) && pid in s.dirs && Private(vpn) && !Present(PdeOf(s, pid, vpn / WORDS)) && f in s.roles && s.roles[f] == Held
    requires CanAlloc(s.phys) && DoAlloc(s).Done?
    ensures f in s.phys.mem && MapPage(s, pid, vpn, f, global, write, user).Done?
    ensures var s' := MapPage(s, pid, vpn, f, global, write, user).value;
            && SysInv(s') && SameBut(s, s', pid, vpn) && DirSet(s, s', pid, vpn / WORDS, TableFlags(0, global, write, user))
            && PageOf(s', pid, vpn) == Mapping(TableFlags(0, global, write, user), MapFlags(global, write, user), s.phys.mem[f])
  {
    TableBuilt(s, pid, vpn, global, write, user);
    BuiltFirst(s, pid, vpn, f, global, write, user);
    hide SysInv, MapPage, PteOf, PdeOf, Built;
    var s2 := Built(s, pid, vpn, global, write, user);
    MapInTable(s2, pid, vpn, f, global, write, user);
    ThenOne(s, s2, MapPage(s2, pid, vpn, f, global, write, user).value, pid, vpn);
    DirSetStays(s, s2, MapPage(s2, pid, vpn, f, global, write, user).value, pid, vpn / WORDS, TableFlags(0, global, write, user));
  }

  lemma SameThenSet(s: Sys, s1: Sys, s2: Sys, pid: int, i: int, flags: int)
    requires SameDirs(s, s1) && DirSet(s1, s2, pid, i, flags)
    ensures DirSet(s, s2, pid, i, flags)
  {
    forall q, j {:trigger PdeOf(s2, q, j)} | q in s.dirs && !(q == pid && j == i)
      ensures PdeOf(s2, q, j) == PdeOf(s, q, j)
    {
      assert PdeOf(s2, q, j) == PdeOf(s1, q, j) && PdeOf(s1, q, j) == PdeOf(s, q, j);
    }
  }

  lemma DirSetStays(s: Sys, s1: Sys, s2: Sys, pid: int, i: int, flags: int)
    requires DirSet(s, s1, pid, i, flags) && SameDirs(s1, s2)
    ensures DirSet(s, s2, pid, i, flags)
  {
    OtherThenSame(s, s1, s2, pid);
    forall j {:trigger PdeOf(s2, pid, j)}
      ensures PdeOf(s2, pid, j) == PdeOf(s1, pid, j)
    {
    }
    assert PdeOf(s2, pid, i) == PdeOf(s1, pid, i);
  }

  /** The state after add_mapping has built the missing table and before it writes the leaf word. */
  ghost function Built(s: Sys, pid: int, vpn: int, global: bool, write: bool, user: bool): Sys
    requires SysInv(s) && pid in s.dirs && Private(vpn) && !Present(PdeOf(s, pid, vpn / WORDS))
    requires CanAlloc(s.phys) && DoAlloc(s).Done?
  {
    var (s1, t) := DoAlloc(s).value;
    AllocStep(s);
    DirFrame(s1, pid);
    assert GoodPde(s, pid, vpn / WORDS);
    DoSetPde(s1, pid, vpn / WORDS, TableWord(PdeOf(s, pid, vpn / WORDS), t, global, write, user)).(roles := s1.roles[t := Table(pid, vpn / WORDS)])
  }

  lemma TableBuilt(s: Sys, pid: int, vpn: int, global: bool, write: bool, user: bool)
    requires SysInv(s) && pid in s.dirs && Private(vpn) && !Present(PdeOf(s, pid, vpn / WORDS))
    requires CanAlloc(s.phys) && DoAlloc(s).Done?
    ensures var s2 := Built(s, pid, vpn, global, write, user);
            && SysInv(s2) && SamePages(s, s2) && HasTable(s2, pid, vpn) && !Present(PteOf(s2, pid, vpn))
            && DirSet(s, s2, pid, vpn / WORDS, TableFlags(0, global, write, user))
            && (forall g :: g in s.roles ==> g in s2.roles && s2.roles[g] == s.roles[g] && g in s.phys.mem && g in s2.phys.mem
                                             && (s.roles[g] == Held ==> s2.phys.mem[g] == s.phys.mem[g]))
  {
    hide SysInv, Frames.Inv, PageOf, PteOf;
    var i := vpn / WORDS;
    BareWord(s, pid, i);
    AllocStep(s);
    NewFrame(s);
    var (s1, t) := DoAlloc(s).value;
    DirsStay(s, s1, t);
    assert PdeOf(s1, pid, i) == PdeOf(s, pid, i);
    var w := TableWord(0, t, global, write, user);
    TableWordNonNeg(0, t, global, write, user);
    LinkTable(s1, pid, i, t, w);
    var s2 := Built(s, pid, vpn, global, write, user);
    NewTableEmpty(s1, s2, pid, vpn);
    PagesTrans(s, s1, s2);
    SameThenSet(s, s1, s2, pid, i, TableFlags(0, global, write, user));
    forall g | g in s.roles
      ensures g in s2.roles && s2.roles[g] == s.roles[g] && g in s.phys.mem && g in s2.phys.mem
      ensures s.roles[g] == Held ==> s2.phys.mem[g] == s.phys.mem[g]
    {
      HeldFrame(s, g);
      DirFrame(s1, pid);
    }
  }

  lemma BareWord(s: Sys, pid: int, i: int)
    requires SysInv(s) && pid in s.dirs && FIRST <= i < LAST && !Present(PdeOf(s, pid, i))
    ensures PdeOf(s, pid, i) == 0
  {
    assert GoodPde(s, pid, i);
  }

  lemma NewFrame(s: Sys)
    requires SysInv(s) && CanAlloc(s.phys) && DoAlloc(s).Done?
    ensures DoAlloc(s).value.1 >= 0
  {
    AllocResult(s.phys, s.lo, s.free);
  }

  lemma BuiltFirst(s: Sys, pid: int, vpn: int, f: int, global: bool, write: bool, user: bool)
    requires SysInv(s) && pid in s.dirs && Private(vpn) && !Present(PdeOf(s, pid, vpn / WORDS)) && f in s.roles
    requires CanAlloc(s.phys) && DoAlloc(s).Done?
    requires var s2 := Built(s, pid, vpn, global, write, user); SysInv(s2) && HasTable(s2, pid, vpn)
    ensures MapPage(s, pid, vpn, f, global, write, user) == MapPage(Built(s, pid, vpn, global, write, user), pid, vpn, f, global, write, user)
  {
    DirReady(s, pid, vpn);
    AllocStep(s);
    var s2 := Built(s, pid, vpn, global, write, user);
    DirReady(s2, pid, vpn);
    DirFrame(s, pid);
    var (p1, t) := Alloc(s.phys).value;
    assert NextFrame(s) == t;
    assert s2.roles == s.roles[t := Table(pid, vpn / WORDS)];
    assert WithTable(s.phys, s.dirs[pid], vpn, global, write, user) == Done((s2.phys, t));
    assert WithTable(s2.phys, s.dirs[pid], vpn, global, write, user) == Done((s2.phys, t));
  }

  lemma NewTableEmpty(s1: Sys, s2: Sys, pid: int, vpn: int)
    requires SysInv(s1) && SysInv(s2) && SamePages(s1, s2) && pid in s1.dirs && Private(vpn) && !Present(PdeOf(s1, pid, vpn / WORDS))
    ensures !Present(PteOf(s2, pid, vpn))
  {
    LeafPage(s1, pid, vpn);
    LeafPage(s2, pid, vpn);
    assert PageOf(s2, pid, vpn) == PageOf(s1, pid, vpn);
  }

  lemma TableWordNonNeg(was: nat, t: int, global: bool, write: bool, user: bool)
    requires !Present(was) && 0 <= t
    ensures 0 <= TableWord(was, t, global, write, user)
  {
  }

  lemma ThenOne(s: Sys, s1: Sys, s2: Sys, pid: int, vpn: int)
    requires SamePages(s, s1) && SameBut(s1, s2, pid, vpn)
    ensures SameBut(s, s2, pid, vpn)
  {
    forall q, v {:trigger PageOf(s2, q, v)} | Private(v) && (q, v) != (pid, vpn)
      ensures PageOf(s2, q, v) == PageOf(s, q, v)
    {
      assert PageOf(s2, q, v) == PageOf(s1, q, v);
    }
  }
}
