/** fork's address space: a new directory and a deep copy of every private page. */
module VmFork {
  import opened Basics
  import opened Frames
  import opened Paging
  import opened Ownership
  import opened OwnershipSteps
  import opened VmOps

  // ---------- new_page_directory ----------

  function NewDirectory(s: Sys, pid: int): Maybe<Sys>
    requires CanAlloc(s.phys) && s.global in s.phys.mem
  {
    match DoAlloc(s)
    case Panic => Panic
    case Done((s1, f)) =>
      Done(DoWrite(s1, f, s.phys.mem[s.global]).(dirs := s.dirs[pid := f], roles := s1.roles[f := Dir(pid)]))
  }

  /** Pages of every process but pid are the same. */
  ghost predicate SameOthers(s: Sys, s': Sys, pid: int) {
    && s'.global == s.global && s'.lo == s.lo
    && (forall q {:trigger q in s'.dirs} :: q != pid ==> (q in s'.dirs <==> q in s.dirs))
    && (forall q, v {:trigger PageOf(s', q, v)} :: q != pid && Private(v) ==> PageOf(s', q, v) == PageOf(s, q, v))
  }

  /** A process with a fresh directory and nothing private. */
  lemma NewDirectoryStep(s: Sys, pid: int)
    requires SysInv(s) && pid !in s.dirs
    ensures CanAlloc(s.phys) && s.global in s.phys.mem
    ensures NewDirectory(s, pid).Panic? <==> Room(s) == 0
    ensures NewDirectory(s, pid).Done? ==>
              var s' := NewDirectory(s, pid).value;
              && SysInv(s') && SameOthers(s, s', pid) && NoSpace(s', pid) && OtherDirs(s, s', pid)
              && s'.dirs == s.dirs[pid := s'.dirs[pid]] && Room(s') == Room(s) - 1
  {
    hide SysInv, Frames.Inv, PageOf, PdeOf;
    AllocRoom(s);
    AllocStep(s);
    GlobalFrame(s);
    if DoAlloc(s).Done? {
      var (s1, f) := DoAlloc(s).value;
      var s2 := DoWrite(s1, f, s.phys.mem[s.global]);
      WriteStep(s1, f, s.phys.mem[s.global]);
      PagesTrans(s, s1, s2);
      Enroll(s2, pid, f);
      DirsStay(s, s1, f);
      DirsStay(s1, s2, f);
      DirsTrans(s, s1, s2);
      EnrollDirs(s, s2, NewDirectory(s, pid).value, pid);
    }
  }

  lemma GlobalFrame(s: Sys)
    requires SysInv(s)
    ensures s.global in s.roles && s.roles[s.global] == Kernel && s.global in s.phys.mem && |s.phys.mem[s.global]| == WORDS
  {
    assert InUse(s, s.global);
  }

  lemma EnrollDirs(s: Sys, s2: Sys, s': Sys, pid: int)
    requires SameDirs(s, s2) && pid !in s.dirs && pid in s'.dirs && s'.dirs == s2.dirs[pid := s'.dirs[pid]] && s'.phys == s2.phys
    ensures OtherDirs(s, s', pid)
  {
    forall q, i {:trigger PdeOf(s', q, i)} | q != pid && q in s.dirs
      ensures PdeOf(s', q, i) == PdeOf(s, q, i)
    {
      assert PdeOf(s', q, i) == PdeOf(s2, q, i);
    }
  }

  /** The frames still to be had. */
  function Room(s: Sys): int {
    |s.free| + (s.phys.limit - s.phys.avail) / PAGE
  }

  lemma AllocRoom(s: Sys)
    requires SysInv(s)
    ensures CanAlloc(s.phys) && 0 <= Room(s)
    ensures DoAlloc(s).Panic? <==> Room(s) == 0
    ensures DoAlloc(s).Done? ==> Room(DoAlloc(s).value.0) == Room(s) - 1
  {
    AllocStep(s);
    if s.free != [] { AllocPop(s.phys, s.lo, s.free); }
  }

  /** A held copy of the global directory becomes the directory of a new process. */
  lemma Enroll(s: Sys, pid: int, f: int)
    requires SysInv(s) && pid !in s.dirs && f in s.roles && s.roles[f] == Held && f in s.phys.mem
    requires s.global in s.phys.mem && s.phys.mem[f] == s.phys.mem[s.global]
    ensures var s' := s.(dirs := s.dirs[pid := f], roles := s.roles[f := Dir(pid)]);
            SysInv(s') && SameOthers(s, s', pid) && NoSpace(s', pid)
  {
    var s1 := s.(dirs := s.dirs[pid := f]);
    EnrolledWords(s, s1, pid, f);
    forall r {:trigger Spot(s1, r)}
      ensures r != Dir(pid) ==> Spot(s1, r) == Spot(s, r)
    {
      EnrolledSpot(s, s1, pid, f, r);
    }
    assert InUse(s, f);
    EnrolledRest(s, s1, pid, f);
    SysBooks(s);
    var s' := s1.(roles := s.roles[f := Dir(pid)]);
    hide SysInv, Frames.Inv, Owned, RoleOk, InUse, GoodPde;
    Relabel(s, s1, f, Dir(pid), Dir(pid));
    RolesOnly(s1, s', f, Dir(pid));
    RolesInvisible(s1, s');
  }

  lemma EnrolledWords(s: Sys, s1: Sys, pid: int, f: int)
    requires SysInv(s) && pid !in s.dirs && f in s.phys.mem && s.global in s.phys.mem && s.phys.mem[f] == s.phys.mem[s.global]
    requires s1 == s.(dirs := s.dirs[pid := f])
    ensures forall i {:trigger PdeOf(s1, pid, i)} :: 0 <= PdeOf(s1, pid, i) && (FIRST <= i < LAST ==> PdeOf(s1, pid, i) == 0)
    ensures forall v {:trigger PteOf(s1, pid, v)} :: Private(v) ==> PteOf(s1, pid, v) == 0
  {
    forall i {:trigger PdeOf(s1, pid, i)}
      ensures 0 <= PdeOf(s1, pid, i) && (FIRST <= i < LAST ==> PdeOf(s1, pid, i) == 0)
    {
      assert PdeOf(s1, pid, i) == WordAt(s.phys.mem, s.global, i);
    }
    forall v {:trigger PteOf(s1, pid, v)} | Private(v)
      ensures PteOf(s1, pid, v) == 0
    {
      assert PdeOf(s1, pid, v / WORDS) == 0;
    }
  }

  lemma EnrolledSpot(s: Sys, s1: Sys, pid: int, f: int, r: Role)
    requires pid !in s.dirs && s1 == s.(dirs := s.dirs[pid := f])
    requires forall i {:trigger PdeOf(s1, pid, i)} :: FIRST <= i < LAST ==> PdeOf(s1, pid, i) == 0
    requires forall v {:trigger PteOf(s1, pid, v)} :: Private(v) ==> PteOf(s1, pid, v) == 0
    ensures r != Dir(pid) ==> Spot(s1, r) == Spot(s, r)
  {
    match r
    case Held =>
    case Kernel =>
    case Dir(_) =>
    case Table(q, i) => if q == pid && FIRST <= i < LAST { assert PdeOf(s1, pid, i) == 0; }
    case Leaf(q, v) => if q == pid && Private(v) { assert PteOf(s1, pid, v) == 0; }
  }

  lemma EnrolledRest(s: Sys, s1: Sys, pid: int, f: int)
    requires SysInv(s) && pid !in s.dirs && s1 == s.(dirs := s.dirs[pid := f])
    requires forall i {:trigger PdeOf(s1, pid, i)} :: 0 <= PdeOf(s1, pid, i) && (FIRST <= i < LAST ==> PdeOf(s1, pid, i) == 0)
    requires forall v {:trigger PteOf(s1, pid, v)} :: Private(v) ==> PteOf(s1, pid, v) == 0
    ensures forall g {:trigger InUse(s1, g)} :: InUse(s1, g)
    ensures forall q, i {:trigger GoodPde(s1, q, i)} :: GoodPde(s1, q, i)
    ensures GlobalOk(s1) && SameOthers(s, s1, pid) && NoSpace(s1, pid)
  {
    forall g {:trigger InUse(s1, g)}
      ensures InUse(s1, g)
    {
      assert InUse(s, g);
    }
    forall q, i {:trigger GoodPde(s1, q, i)}
      ensures GoodPde(s1, q, i)
    {
      assert GoodPde(s, q, i);
      assert q == pid ==> 0 <= PdeOf(s1, pid, i);
    }
    forall v {:trigger PageOf(s1, pid, v)} | Private(v)
      ensures PageOf(s1, pid, v) == Absent
    {
      assert PteOf(s1, pid, v) == 0;
    }
  }

  // ---------- copy_page_directory ----------

  predicate CanCopy(s: Sys, par: int, ch: int, vpn: int) {
    && par in s.dirs && ch in s.dirs && CanAlloc(s.phys)
    && (Present(PteOf(s, par, vpn)) ==> FrameOf(PteOf(s, par, vpn)) in s.phys.mem && HasWord(s.phys, TableOf(s, ch, vpn), vpn % WORDS))
  }

  /** The body of the inner loop: a new frame, the same flags, the same bytes. */
  function CopyPage(s: Sys, par: int, ch: int, vpn: int): Maybe<Sys>
    requires CanCopy(s, par, ch, vpn)
  {
    var e := PteOf(s, par, vpn);
    if !Present(e) then Done(s)
    else
      match DoAlloc(s)
      case Panic => Panic
      case Done((s1, f)) =>
        var s2 := s1.(phys := SetWord(s1.phys, TableOf(s, ch, vpn), vpn % WORDS, PAGE * f + Flags(e)), roles := s1.roles[f := Leaf(ch, vpn)]);
        Done(DoWrite(s2, f, s.phys.mem[FrameOf(e)]))
  }

  lemma CopyReady(s: Sys, par: int, ch: int, vpn: int)
    requires SysInv(s) && par in s.dirs && HasTable(s, ch, vpn)
    ensures CanCopy(s, par, ch, vpn)
  {
    AllocStep(s);
    TableFrame(s, ch, vpn);
    assert Owned(s, Leaf(par, vpn));
    if Present(PteOf(s, par, vpn)) { assert InUse(s, FrameOf(PteOf(s, par, vpn))); }
  }

  /** One page copied: the child sees what the parent sees there, and nothing else changes. */
  lemma CopyPageStep(s: Sys, par: int, ch: int, vpn: int)
    requires SysInv(s) && par in s.dirs && par != ch && HasTable(s, ch, vpn) && PageOf(s, ch, vpn) == Absent && TwinDir(s, par, ch, vpn / WORDS)
    ensures CanCopy(s, par, ch, vpn)
    ensures CopyPage(s, par, ch, vpn).Panic? <==> PageOf(s, par, vpn).Mapping? && Room(s) == 0
    ensures CopyPage(s, par, ch, vpn).Done? ==>
              var s' := CopyPage(s, par, ch, vpn).value;
              && SysInv(s') && SameBut(s, s', ch, vpn) && SameDirs(s, s')
              && PageOf(s', ch, vpn) == PageOf(s, par, vpn)
              && Room(s') == Room(s) - if PageOf(s, par, vpn).Mapping? then 1 else 0
  {
    AllocRoom(s);
    CopyReady(s, par, ch, vpn);
    LeafPage(s, par, vpn);
    LeafPage(s, ch, vpn);
    if Present(PteOf(s, par, vpn)) {
      AllocStep(s);
      if DoAlloc(s).Done? {
        CopyMapped(s, par, ch, vpn);
      }
    }
  }

  /** Table i of both processes has the same flags in their directories. */
  ghost predicate TwinDir(s: Sys, par: int, ch: int, i: int) {
    par in s.dirs && ch in s.dirs && (Present(PdeOf(s, par, i)) ==> Flags(PdeOf(s, ch, i)) == Flags(PdeOf(s, par, i)))
  }

  lemma CopyMapped(s: Sys, par: int, ch: int, vpn: int)
    requires SysInv(s) && par in s.dirs && par != ch && HasTable(s, ch, vpn) && PageOf(s, ch, vpn) == Absent && TwinDir(s, par, ch, vpn / WORDS)
    requires CanCopy(s, par, ch, vpn) && Present(PteOf(s, par, vpn)) && DoAlloc(s).Done?
    ensures CopyPage(s, par, ch, vpn).Done?
    ensures var s' := CopyPage(s, par, ch, vpn).value;
            && SysInv(s') && SameBut(s, s', ch, vpn) && SameDirs(s, s')
            && PageOf(s', ch, vpn) == PageOf(s, par, vpn)
            && s'.free == DoAlloc(s).value.0.free && s'.phys.avail == DoAlloc(s).value.0.phys.avail && s'.phys.limit == DoAlloc(s).value.0.phys.limit
  {
    hide SysInv, Frames.Inv, PageOf, PteOf, PdeOf, DoAlloc;
    LinkCopy(s, par, ch, vpn);
    LeafIs(s, par, vpn);
    var f, s2 := DoAlloc(s).value.1, Linked(s, par, ch, vpn);
    var w := s.phys.mem[FrameOf(PteOf(s, par, vpn))];
    CopyEnds(s, s2, ch, vpn, f, w);
  }

  /** A present private word names the frame of its page. */
  lemma LeafIs(s: Sys, pid: int, vpn: int)
    requires SysInv(s) && pid in s.dirs && Private(vpn) && Present(PteOf(s, pid, vpn))
    ensures var f := FrameOf(PteOf(s, pid, vpn));
            && f in s.roles && s.roles[f] == Leaf(pid, vpn) && f in s.phys.mem && |s.phys.mem[f]| == WORDS
            && PageOf(s, pid, vpn) == Mapping(Flags(PdeOf(s, pid, vpn / WORDS)), Flags(PteOf(s, pid, vpn)), s.phys.mem[f])
            && Present(PdeOf(s, pid, vpn / WORDS))
  {
    assert Owned(s, Leaf(pid, vpn)) && InUse(s, FrameOf(PteOf(s, pid, vpn)));
  }

  /** The state when the child's word is written and the contents are not copied yet. */
  function Linked(s: Sys, par: int, ch: int, vpn: int): Sys
    requires CanCopy(s, par, ch, vpn) && Present(PteOf(s, par, vpn)) && DoAlloc(s).Done?
  {
    var (s1, f) := DoAlloc(s).value;
    s1.(phys := SetWord(s1.phys, TableOf(s, ch, vpn), vpn % WORDS, PAGE * f + Flags(PteOf(s, par, vpn))), roles := s1.roles[f := Leaf(ch, vpn)])
  }

  /** After the allocation the child's page is still unmapped and its table is where it was. */
  lemma AllocForCopy(s: Sys, ch: int, vpn: int)
    requires SysInv(s) && HasTable(s, ch, vpn) && PageOf(s, ch, vpn) == Absent && CanAlloc(s.phys) && DoAlloc(s).Done?
    ensures var (s1, f) := DoAlloc(s).value;
            && SysInv(s1) && SamePages(s, s1) && SameDirs(s, s1) && HasTable(s1, ch, vpn) && TableOf(s1, ch, vpn) == TableOf(s, ch, vpn)
            && !Present(PteOf(s1, ch, vpn)) && f in s1.roles && s1.roles[f] == Held && f in s1.phys.mem && s1.phys.mem[f] == Zero()
  {
    AllocStep(s);
    var (s1, f) := DoAlloc(s).value;
    DirsStay(s, s1, f);
    assert PdeOf(s1, ch, vpn / WORDS) == PdeOf(s, ch, vpn / WORDS);
    assert PageOf(s1, ch, vpn) == PageOf(s, ch, vpn);
    LeafPage(s1, ch, vpn);
  }

  lemma LinkCopy(s: Sys, par: int, ch: int, vpn: int)
    requires SysInv(s) && par in s.dirs && HasTable(s, ch, vpn) && PageOf(s, ch, vpn) == Absent
    requires CanCopy(s, par, ch, vpn) && Present(PteOf(s, par, vpn)) && DoAlloc(s).Done?
    ensures var s2, f := Linked(s, par, ch, vpn), DoAlloc(s).value.1;
            && SysInv(s2) && SameBut(s, s2, ch, vpn) && SameDirs(s, s2) && f in s2.roles && s2.roles[f] == Leaf(ch, vpn)
            && PageOf(s2, ch, vpn) == Mapping(Flags(PdeOf(s, ch, vpn / WORDS)), Flags(PteOf(s, par, vpn)), Zero())
  {
    hide SysInv, Frames.Inv, PageOf, DoAlloc, PteOf;
    AllocForCopy(s, ch, vpn);
    var (s1, f) := DoAlloc(s).value;
    var flags := Flags(PteOf(s, par, vpn));
    PresentFlags(PteOf(s, par, vpn));
    LinkOne(s1, ch, vpn, f, flags);
    LinkThen(s, s1, Linked(s, par, ch, vpn), ch, vpn);
  }

  lemma LinkOne(s: Sys, pid: int, vpn: int, f: int, flags: int)
    requires SysInv(s) && HasTable(s, pid, vpn) && !Present(PteOf(s, pid, vpn))
    requires f in s.roles && s.roles[f] == Held && 0 <= flags < PAGE && Present(flags)
    ensures HasWord(s.phys, TableOf(s, pid, vpn), vpn % WORDS) && f in s.phys.mem
    ensures var s' := DoSetPte(s, pid, vpn, PAGE * f + flags).(roles := s.roles[f := Leaf(pid, vpn)]);
            && SysInv(s') && SameBut(s, s', pid, vpn) && SameDirs(s, s')
            && PageOf(s', pid, vpn) == Mapping(Flags(PdeOf(s, pid, vpn / WORDS)), flags, s.phys.mem[f])
  {
    hide SysInv;
    LinkLeaf(s, pid, vpn, f, flags);
    DirsOfPte(s, pid, vpn, PAGE * f + flags);
    var s1 := DoSetPte(s, pid, vpn, PAGE * f + flags);
    RolesInvisible(s1, s1.(roles := s.roles[f := Leaf(pid, vpn)]));
  }

  lemma LinkThen(s: Sys, s1: Sys, s2: Sys, pid: int, vpn: int)
    requires SamePages(s, s1) && SameDirs(s, s1) && SameBut(s1, s2, pid, vpn) && SameDirs(s1, s2)
    ensures SameBut(s, s2, pid, vpn) && SameDirs(s, s2)
  {
    ThenOne(s, s1, s2, pid, vpn);
    DirsTrans(s, s1, s2);
  }

  lemma DirsTrans(s: Sys, s1: Sys, s2: Sys)
    requires SameDirs(s, s1) && SameDirs(s1, s2)
    ensures SameDirs(s, s2)
  {
    forall q, i {:trigger PdeOf(s2, q, i)} | q in s.dirs
      ensures PdeOf(s2, q, i) == PdeOf(s, q, i)
    {
      assert PdeOf(s2, q, i) == PdeOf(s1, q, i);
    }
  }

  lemma CopyEnds(s: Sys, s2: Sys, ch: int, vpn: int, f: int, w: seq<int>)
    requires SysInv(s2) && SameBut(s, s2, ch, vpn) && SameDirs(s, s2) && Private(vpn)
    requires f in s2.roles && s2.roles[f] == Leaf(ch, vpn) && |w| == WORDS
    ensures SysInv(DoWrite(s2, f, w)) && SameBut(s, DoWrite(s2, f, w), ch, vpn) && SameDirs(s, DoWrite(s2, f, w))
    ensures PageOf(s2, ch, vpn).Mapping? && PageOf(DoWrite(s2, f, w), ch, vpn) == PageOf(s2, ch, vpn).(words := w)
  {
    hide SysInv;
    var s3 := DoWrite(s2, f, w);
    WriteStep(s2, f, w);
    DirsStay(s2, s3, f);
    DirsTrans(s, s2, s3);
    forall q, v {:trigger PageOf(s3, q, v)} | Private(v) && (q, v) != (ch, vpn)
      ensures PageOf(s3, q, v) == PageOf(s, q, v)
    {
      assert PageOf(s3, q, v) == PageOf(s2, q, v);
    }
  }

  lemma PresentFlags(e: int)
    requires Present(e)
    ensures 0 <= Flags(e) < PAGE && Present(Flags(e))
  {
    LowParity(e);
  }

  // ---------- the loops ----------

  /** Mapped pages among the n pages from vpn. */
  ghost function MappedIn(s: Sys, pid: int, vpn: int, n: nat): nat
    decreases n
  {
    if n == 0 then 0 else (if PageOf(s, pid, vpn).Mapping? then 1 else 0) + MappedIn(s, pid, vpn + 1, n - 1)
  }

  lemma {:induction false} MappedStays(s: Sys, s': Sys, pid: int, vpn: int, n: nat)
    requires forall v {:trigger PageOf(s', pid, v)} :: vpn <= v < vpn + n ==> PageOf(s', pid, v) == PageOf(s, pid, v)
    ensures MappedIn(s', pid, vpn, n) == MappedIn(s, pid, vpn, n)
    decreases n
  {
    hide PageOf;
    if n > 0 {
      assert PageOf(s', pid, vpn) == PageOf(s, pid, vpn);
      MappedStays(s, s', pid, vpn + 1, n - 1);
    }
  }

  /** n pages from vpn, all in tables the child has with the parent's directory flags, none mapped in the child yet. */
  ghost predicate CopySource(s: Sys, par: int, ch: int, vpn: int, n: nat) {
    && SysInv(s) && par in s.dirs && ch in s.dirs && par != ch && InRange(vpn, n)
    && (forall v {:trigger CopyReadyAt(s, par, ch, v)} :: vpn <= v < vpn + n ==> CopyReadyAt(s, par, ch, v))
  }

  /** The child has the table of page v, with the parent's directory flags, and nothing at v. */
  ghost predicate CopyReadyAt(s: Sys, par: int, ch: int, v: int) {
    PageOf(s, ch, v) == Absent && HasTable(s, ch, v) && TwinDir(s, par, ch, v / WORDS)
  }

  lemma CopyNow(s: Sys, par: int, ch: int, vpn: int, n: nat)
    requires n > 0 && CopySource(s, par, ch, vpn, n)
    ensures SysInv(s) && par in s.dirs && par != ch && HasTable(s, ch, vpn) && PageOf(s, ch, vpn) == Absent && TwinDir(s, par, ch, vpn / WORDS)
    ensures Private(vpn)
  {
    assert CopyReadyAt(s, par, ch, vpn);
  }

  /** The inner loop over one table. */
  ghost function CopyRange(s: Sys, par: int, ch: int, vpn: int, n: nat): Maybe<Sys>
    requires CopySource(s, par, ch, vpn, n)
    decreases n
  {
    if n == 0 then Done(s)
    else
      CopyNow(s, par, ch, vpn, n);
      CopyPageStep(s, par, ch, vpn);
      match CopyPage(s, par, ch, vpn)
      case Panic => Panic
      case Done(s1) =>
        SourceStays(s, s1, par, ch, vpn, n);
        CopyRange(s1, par, ch, vpn + 1, n - 1)
  }

  lemma SourceStays(s: Sys, s1: Sys, par: int, ch: int, vpn: int, n: nat)
    requires n > 0 && CopySource(s, par, ch, vpn, n) && SysInv(s1) && SameBut(s, s1, ch, vpn) && SameDirs(s, s1)
    ensures CopySource(s1, par, ch, vpn + 1, n - 1)
  {
    forall v {:trigger CopyReadyAt(s1, par, ch, v)} | vpn + 1 <= v < vpn + n
      ensures CopyReadyAt(s1, par, ch, v)
    {
      assert CopyReadyAt(s, par, ch, v);
      assert PageOf(s1, ch, v) == PageOf(s, ch, v);
      assert PdeOf(s1, ch, v / WORDS) == PdeOf(s, ch, v / WORDS) && PdeOf(s1, par, v / WORDS) == PdeOf(s, par, v / WORDS);
    }
  }

  /** The inner loop fails exactly when there are fewer frames than pages to copy. */
  lemma {:induction false} CopyRangeStep(s: Sys, par: int, ch: int, vpn: int, n: nat)
    requires CopySource(s, par, ch, vpn, n)
    ensures CopyRange(s, par, ch, vpn, n).Panic? <==> Room(s) < MappedIn(s, par, vpn, n)
    ensures CopyRange(s, par, ch, vpn, n).Done? ==>
              var s' := CopyRange(s, par, ch, vpn, n).value;
              && SysInv(s') && SameOutside(s, s', ch, vpn, vpn + n) && SameDirs(s, s') && Room(s') == Room(s) - MappedIn(s, par, vpn, n)
              && (forall v {:trigger PageOf(s', ch, v)} :: vpn <= v < vpn + n ==> PageOf(s', ch, v) == PageOf(s, par, v))
    decreases n
  {
    hide SysInv, PageOf, PdeOf, PteOf, Room, HasTable, TwinDir;
    AllocRoom(s);
    if n > 0 {
      CopyNow(s, par, ch, vpn, n);
      CopyPageStep(s, par, ch, vpn);
      if CopyPage(s, par, ch, vpn).Done? {
        var s1 := CopyPage(s, par, ch, vpn).value;
        SourceStays(s, s1, par, ch, vpn, n);
        CopyRangeStep(s1, par, ch, vpn + 1, n - 1);
        RestStays(s, s1, par, ch, vpn, n);
        if CopyRange(s, par, ch, vpn, n).Done? {
          CopiedRange(s, s1, CopyRange(s, par, ch, vpn, n).value, par, ch, vpn, n);
        }
      }
    }
  }

  lemma RestStays(s: Sys, s1: Sys, par: int, ch: int, vpn: int, n: nat)
    requires n > 0 && par != ch && InRange(vpn, n) && SameBut(s, s1, ch, vpn)
    ensures MappedIn(s1, par, vpn + 1, n - 1) == MappedIn(s, par, vpn + 1, n - 1)
  {
    hide PageOf;
    MappedStays(s, s1, par, vpn + 1, n - 1);
  }

  lemma CopiedRange(s: Sys, s1: Sys, s': Sys, par: int, ch: int, vpn: int, n: nat)
    requires n > 0 && par != ch && InRange(vpn, n)
    requires SameBut(s, s1, ch, vpn) && SameDirs(s, s1) && PageOf(s1, ch, vpn) == PageOf(s, par, vpn)
    requires SameOutside(s1, s', ch, vpn + 1, vpn + n) && SameDirs(s1, s')
    requires forall v {:trigger PageOf(s', ch, v)} :: vpn + 1 <= v < vpn + n ==> PageOf(s', ch, v) == PageOf(s1, par, v)
    ensures SameOutside(s, s', ch, vpn, vpn + n) && SameDirs(s, s')
    ensures forall v {:trigger PageOf(s', ch, v)} :: vpn <= v < vpn + n ==> PageOf(s', ch, v) == PageOf(s, par, v)
  {
    hide PageOf, PdeOf;
    OutsideTrans(s, s1, s', ch, vpn, vpn + 1, vpn + n);
    DirsTrans(s, s1, s');
    forall v {:trigger PageOf(s', ch, v)} | vpn <= v < vpn + n
      ensures PageOf(s', ch, v) == PageOf(s, par, v)
    {
      assert v != vpn ==> PageOf(s1, par, v) == PageOf(s, par, v);
      assert v == vpn ==> PageOf(s', ch, v) == PageOf(s1, ch, v);
    }
  }

  /** The child has no table from i on. */
  ghost predicate BareFrom(s: Sys, ch: int, i: int) {
    && ch in s.dirs
    && (forall j {:trigger PdeOf(s, ch, j)} :: i <= j < LAST ==> !Present(PdeOf(s, ch, j)))
  }

  /** The outer loop body when the parent has table i: a new table with the same flags. */
  ghost function CopyTable(s: Sys, par: int, ch: int, i: int): Maybe<Sys>
    requires SysInv(s) && par in s.dirs && par != ch && FIRST <= i < LAST && BareFrom(s, ch, i)
  {
    AllocStep(s);
    match DoAlloc(s)
    case Panic => Panic
    case Done((s1, t)) =>
      DirFrame(s1, ch);
      Done(DoSetPde(s1, ch, i, PAGE * t + Flags(PdeOf(s, par, i))).(roles := s1.roles[t := Table(ch, i)]))
  }

  /** A new table for the child, with the flags the parent's has in its directory; no page changes. */
  lemma CopyTableStep(s: Sys, par: int, ch: int, i: int)
    requires SysInv(s) && par in s.dirs && par != ch && FIRST <= i < LAST && BareFrom(s, ch, i) && Present(PdeOf(s, par, i))
    ensures CopyTable(s, par, ch, i).Panic? <==> Room(s) == 0
    ensures CopyTable(s, par, ch, i).Done? ==>
              var s' := CopyTable(s, par, ch, i).value;
              && SysInv(s') && SamePages(s, s') && BareFrom(s', ch, i + 1) && DirSet(s, s', ch, i, Flags(PdeOf(s, par, i)))
              && CopySource(s', par, ch, i * WORDS, WORDS) && Room(s') == Room(s) - 1
  {
    hide SysInv, Frames.Inv, PdeOf, PteOf, PageOf;
    AllocRoom(s);
    AllocStep(s);
    if DoAlloc(s).Done? {
      var (s1, t) := DoAlloc(s).value;
      var e := PdeOf(s, par, i);
      AllocForTable(s, ch, i);
      PresentFlags(e);
      WordParts(t, Flags(e));
      LinkTable(s1, ch, i, t, PAGE * t + Flags(e));
      var s' := CopyTable(s, par, ch, i).value;
      PagesTrans(s, s1, s');
      NowBare(s, s1, s', ch, i);
      SameThenSet(s, s1, s', ch, i, Flags(e));
      TableAbsent(s, s', par, ch, i);
    }
  }

  lemma AllocForTable(s: Sys, ch: int, i: int)
    requires SysInv(s) && BareFrom(s, ch, i) && FIRST <= i < LAST && CanAlloc(s.phys) && DoAlloc(s).Done?
    ensures var (s1, t) := DoAlloc(s).value; SameDirs(s, s1) && !Present(PdeOf(s1, ch, i)) && t >= 0
  {
    AllocStep(s);
    var (s1, t) := DoAlloc(s).value;
    DirsStay(s, s1, t);
    assert PdeOf(s1, ch, i) == PdeOf(s, ch, i);
    assert InUse(s1, t);
  }

  lemma NowBare(s: Sys, s1: Sys, s': Sys, ch: int, i: int)
    requires BareFrom(s, ch, i) && SameDirs(s, s1) && s'.dirs == s1.dirs
    requires forall j :: j != i ==> PdeOf(s', ch, j) == PdeOf(s1, ch, j)
    ensures BareFrom(s', ch, i + 1)
  {
    hide PdeOf;
    forall j {:trigger PdeOf(s', ch, j)} | i + 1 <= j < LAST
      ensures !Present(PdeOf(s', ch, j))
    {
      assert PdeOf(s1, ch, j) == PdeOf(s, ch, j);
    }
  }

  lemma TableAbsent(s: Sys, s': Sys, par: int, ch: int, i: int)
    requires SysInv(s') && par in s.dirs && par != ch && BareFrom(s, ch, i) && SamePages(s, s') && FIRST <= i < LAST
    requires DirSet(s, s', ch, i, Flags(PdeOf(s, par, i)))
    ensures CopySource(s', par, ch, i * WORDS, WORDS)
  {
    assert PdeOf(s', par, i) == PdeOf(s, par, i);
    forall v {:trigger CopyReadyAt(s', par, ch, v)} | i * WORDS <= v < i * WORDS + WORDS
      ensures CopyReadyAt(s', par, ch, v)
    {
      assert v / WORDS == i && Private(v);
      assert !Present(PdeOf(s, ch, v / WORDS));
      assert PageOf(s', ch, v) == PageOf(s, ch, v);
    }
  }

  /** copy_page_directory, from table i on. */
  ghost function CopyTables(s: Sys, par: int, ch: int, i: int): Maybe<Sys>
    requires SysInv(s) && par in s.dirs && par != ch && FIRST <= i <= LAST && BareFrom(s, ch, i)
    decreases LAST - i
  {
    if i == LAST then Done(s)
    else if !Present(PdeOf(s, par, i)) then CopyTables(s, par, ch, i + 1)
    else
      CopyTableStep(s, par, ch, i);
      match CopyTable(s, par, ch, i)
      case Panic => Panic
      case Done(s1) =>
        CopyRangeStep(s1, par, ch, i * WORDS, WORDS);
        match CopyRange(s1, par, ch, i * WORDS, WORDS)
        case Panic => Panic
        case Done(s2) =>
          BareStays(s1, s2, ch, i + 1);
          CopyTables(s2, par, ch, i + 1)
  }

  lemma BareStays(s: Sys, s': Sys, ch: int, i: int)
    requires BareFrom(s, ch, i) && SameDirs(s, s')
    ensures BareFrom(s', ch, i)
  {
    forall j {:trigger PdeOf(s', ch, j)} | i <= j < LAST
      ensures !Present(PdeOf(s', ch, j))
    {
      assert PdeOf(s', ch, j) == PdeOf(s, ch, j);
    }
  }

  /** The frames copy_page_directory takes from table i on: one for each table and one for each mapped page in it. */
  ghost function Needed(s: Sys, par: int, i: int): nat
    requires par in s.dirs
    decreases LAST - i
  {
    if i >= LAST then 0
    else (if Present(PdeOf(s, par, i)) then 1 + MappedIn(s, par, i * WORDS, WORDS) else 0) + Needed(s, par, i + 1)
  }

  /** The parent is as it was. */
  ghost predicate SameParent(s: Sys, s': Sys, par: int) {
    && par in s.dirs && par in s'.dirs
    && (forall i {:trigger PdeOf(s', par, i)} :: PdeOf(s', par, i) == PdeOf(s, par, i))
    && (forall v {:trigger PageOf(s', par, v)} :: Private(v) ==> PageOf(s', par, v) == PageOf(s, par, v))
  }

  lemma {:induction false} NeededStays(s: Sys, s': Sys, par: int, i: int)
    requires SameParent(s, s', par) && FIRST <= i <= LAST
    ensures Needed(s', par, i) == Needed(s, par, i)
    decreases LAST - i
  {
    hide PageOf, PdeOf, MappedIn;
    if i < LAST {
      assert PdeOf(s', par, i) == PdeOf(s, par, i);
      MappedStays(s, s', par, i * WORDS, WORDS);
      NeededStays(s, s', par, i + 1);
    }
  }

  /** The flags of table i in the directory, 0 when there is none. */
  function DirFlags(s: Sys, pid: int, i: int): int
    requires pid in s.dirs
  {
    if Present(PdeOf(s, pid, i)) then Flags(PdeOf(s, pid, i)) else 0
  }

  /** The child's pages and tables from table i on are the parent's, flags and words alike. */
  ghost predicate CopiedFrom(s: Sys, s': Sys, par: int, ch: int, i: int) {
    && par in s.dirs && ch in s'.dirs
    && (forall v {:trigger PageOf(s', ch, v)} :: i * WORDS <= v < LAST * WORDS ==> PageOf(s', ch, v) == PageOf(s, par, v))
    && (forall j {:trigger DirFlags(s', ch, j)} :: i <= j < LAST ==> DirFlags(s', ch, j) == DirFlags(s, par, j))
  }

  /** Everything but the child's pages and tables from table i on is as before. */
  ghost predicate KeptBelow(s: Sys, s': Sys, ch: int, i: int) {
    && SameOutside(s, s', ch, i * WORDS, LAST * WORDS) && OtherDirs(s, s', ch)
    && ch in s.dirs && (forall j {:trigger PdeOf(s', ch, j)} :: j < i ==> PdeOf(s', ch, j) == PdeOf(s, ch, j))
  }

  /** copy_page_directory: it fails exactly when the frames do not suffice; otherwise from table i on the child sees the
      parent's pages with the flags of both levels and the words alike, in frames of its own, and every other page and
      directory word of every process is as before. */
  lemma {:induction false} CopyTablesStep(s: Sys, par: int, ch: int, i: int)
    requires SysInv(s) && par in s.dirs && par != ch && FIRST <= i <= LAST && BareFrom(s, ch, i)
    ensures CopyTables(s, par, ch, i).Panic? <==> Room(s) < Needed(s, par, i)
    ensures CopyTables(s, par, ch, i).Done? ==>
              var s' := CopyTables(s, par, ch, i).value;
              && SysInv(s') && KeptBelow(s, s', ch, i) && CopiedFrom(s, s', par, ch, i) && Room(s') == Room(s) - Needed(s, par, i)
    decreases LAST - i
  {
    hide SysInv, PageOf, PdeOf, PteOf, Room, CopyTable, CopyRange, CopySource, MappedIn, KeptBelow, CopiedFrom, DirSet;
    AllocRoom(s);
    if i == LAST {
      NothingCopied(s, par, ch);
    } else if !Present(PdeOf(s, par, i)) {
      BareNext(s, ch, i);
      CopyTablesStep(s, par, ch, i + 1);
      if CopyTables(s, par, ch, i).Done? {
        SkippedTable(s, CopyTables(s, par, ch, i).value, par, ch, i);
      }
    } else {
      CopyTableStep(s, par, ch, i);
      if CopyTable(s, par, ch, i).Done? {
        var s1 := CopyTable(s, par, ch, i).value;
        AllocRoom(s1);
        CopyRangeStep(s1, par, ch, i * WORDS, WORDS);
        AfterTable(s, s1, par, ch, i);
        if CopyRange(s1, par, ch, i * WORDS, WORDS).Done? {
          var s2 := CopyRange(s1, par, ch, i * WORDS, WORDS).value;
          BareStays(s1, s2, ch, i + 1);
          AfterRange(s1, s2, par, ch, i);
          CopyTablesStep(s2, par, ch, i + 1);
          if CopyTables(s, par, ch, i).Done? {
            CopiedTable(s, s1, s2, CopyTables(s, par, ch, i).value, par, ch, i);
          }
        }
      }
    }
  }

  lemma BareNext(s: Sys, ch: int, i: int)
    requires BareFrom(s, ch, i)
    ensures BareFrom(s, ch, i + 1)
  {
  }

  lemma NothingCopied(s: Sys, par: int, ch: int)
    requires par in s.dirs && ch in s.dirs
    ensures KeptBelow(s, s, ch, LAST) && CopiedFrom(s, s, par, ch, LAST)
  {
  }

  /** Building the child's table leaves the parent alone. */
  lemma AfterTable(s: Sys, s1: Sys, par: int, ch: int, i: int)
    requires par in s.dirs && par != ch && FIRST <= i < LAST && SamePages(s, s1) && DirSet(s, s1, ch, i, Flags(PdeOf(s, par, i)))
    ensures Needed(s1, par, i + 1) == Needed(s, par, i + 1) && MappedIn(s1, par, i * WORDS, WORDS) == MappedIn(s, par, i * WORDS, WORDS)
  {
    hide PageOf, PdeOf, MappedIn;
    NeededStays(s, s1, par, i + 1);
    MappedStays(s, s1, par, i * WORDS, WORDS);
  }

  lemma AfterRange(s1: Sys, s2: Sys, par: int, ch: int, i: int)
    requires par in s1.dirs && par != ch && FIRST <= i < LAST && SameOutside(s1, s2, ch, i * WORDS, i * WORDS + WORDS) && SameDirs(s1, s2)
    ensures Needed(s2, par, i + 1) == Needed(s1, par, i + 1)
  {
    hide PageOf, PdeOf;
    NeededStays(s1, s2, par, i + 1);
  }

  lemma SkippedTable(s: Sys, s': Sys, par: int, ch: int, i: int)
    requires SysInv(s) && par in s.dirs && par != ch && FIRST <= i < LAST && BareFrom(s, ch, i) && !Present(PdeOf(s, par, i))
    requires KeptBelow(s, s', ch, i + 1) && CopiedFrom(s, s', par, ch, i + 1)
    ensures KeptBelow(s, s', ch, i) && CopiedFrom(s, s', par, ch, i)
  {
    assert PdeOf(s', ch, i) == PdeOf(s, ch, i);
    forall v {:trigger PageOf(s', ch, v)} | i * WORDS <= v < LAST * WORDS
      ensures PageOf(s', ch, v) == PageOf(s, par, v)
    {
      if v < (i + 1) * WORDS {
        assert v / WORDS == i && Private(v);
        assert !Present(PdeOf(s, ch, v / WORDS));
        assert PageOf(s', ch, v) == PageOf(s, ch, v);
      }
    }
  }

  lemma CopiedTable(s: Sys, s1: Sys, s2: Sys, s': Sys, par: int, ch: int, i: int)
    requires par in s.dirs && par != ch && FIRST <= i < LAST && SamePages(s, s1) && DirSet(s, s1, ch, i, Flags(PdeOf(s, par, i))) && Present(PdeOf(s, par, i))
    requires SameOutside(s1, s2, ch, i * WORDS, i * WORDS + WORDS) && SameDirs(s1, s2)
    requires forall v {:trigger PageOf(s2, ch, v)} :: i * WORDS <= v < i * WORDS + WORDS ==> PageOf(s2, ch, v) == PageOf(s1, par, v)
    requires KeptBelow(s2, s', ch, i + 1) && CopiedFrom(s2, s', par, ch, i + 1)
    ensures KeptBelow(s, s', ch, i) && CopiedFrom(s, s', par, ch, i)
  {
    hide PageOf, PdeOf;
    CopiedPages(s, s1, s2, s', par, ch, i);
    CopiedDirs(s, s1, s2, s', par, ch, i);
  }

  lemma CopiedPages(s: Sys, s1: Sys, s2: Sys, s': Sys, par: int, ch: int, i: int)
    requires par != ch && FIRST <= i < LAST && SamePages(s, s1)
    requires SameOutside(s1, s2, ch, i * WORDS, i * WORDS + WORDS)
    requires forall v {:trigger PageOf(s2, ch, v)} :: i * WORDS <= v < i * WORDS + WORDS ==> PageOf(s2, ch, v) == PageOf(s1, par, v)
    requires SameOutside(s2, s', ch, (i + 1) * WORDS, LAST * WORDS)
    requires forall v {:trigger PageOf(s', ch, v)} :: (i + 1) * WORDS <= v < LAST * WORDS ==> PageOf(s', ch, v) == PageOf(s2, par, v)
    ensures SameOutside(s, s', ch, i * WORDS, LAST * WORDS)
    ensures forall v {:trigger PageOf(s', ch, v)} :: i * WORDS <= v < LAST * WORDS ==> PageOf(s', ch, v) == PageOf(s, par, v)
  {
    hide PageOf;
    forall q, v {:trigger PageOf(s', q, v)} | Private(v) && !(q == ch && i * WORDS <= v < LAST * WORDS)
      ensures PageOf(s', q, v) == PageOf(s, q, v)
    {
      assert PageOf(s', q, v) == PageOf(s2, q, v);
      assert PageOf(s2, q, v) == PageOf(s1, q, v);
    }
    forall v {:trigger PageOf(s', ch, v)} | i * WORDS <= v < LAST * WORDS
      ensures PageOf(s', ch, v) == PageOf(s, par, v)
    {
      assert Private(v);
      assert PageOf(s2, par, v) == PageOf(s1, par, v) && PageOf(s1, par, v) == PageOf(s, par, v);
      if v < (i + 1) * WORDS {
        assert PageOf(s', ch, v) == PageOf(s2, ch, v);
      }
    }
  }

  lemma CopiedDirs(s: Sys, s1: Sys, s2: Sys, s': Sys, par: int, ch: int, i: int)
    requires par in s.dirs && ch in s.dirs && par != ch && DirSet(s, s1, ch, i, Flags(PdeOf(s, par, i))) && Present(PdeOf(s, par, i)) && SameDirs(s1, s2)
    requires s'.dirs == s2.dirs && OtherDirs(s2, s', ch)
    requires forall j {:trigger PdeOf(s', ch, j)} :: j < i + 1 ==> PdeOf(s', ch, j) == PdeOf(s2, ch, j)
    requires forall j {:trigger DirFlags(s', ch, j)} :: i + 1 <= j < LAST ==> DirFlags(s', ch, j) == DirFlags(s2, par, j)
    ensures OtherDirs(s, s', ch)
    ensures forall j {:trigger PdeOf(s', ch, j)} :: j < i ==> PdeOf(s', ch, j) == PdeOf(s, ch, j)
    ensures forall j {:trigger DirFlags(s', ch, j)} :: i <= j < LAST ==> DirFlags(s', ch, j) == DirFlags(s, par, j)
  {
    hide PdeOf;
    forall q, j {:trigger PdeOf(s', q, j)} | q in s.dirs && (q != ch || j < i)
      ensures PdeOf(s', q, j) == PdeOf(s, q, j)
    {
      assert PdeOf(s', q, j) == PdeOf(s2, q, j) && PdeOf(s2, q, j) == PdeOf(s1, q, j);
    }
    forall j {:trigger DirFlags(s', ch, j)} | i <= j < LAST
      ensures DirFlags(s', ch, j) == DirFlags(s, par, j)
    {
      assert PdeOf(s2, par, j) == PdeOf(s1, par, j) && PdeOf(s1, par, j) == PdeOf(s, par, j);
      assert j == i ==> PdeOf(s', ch, j) == PdeOf(s2, ch, j) && PdeOf(s2, ch, j) == PdeOf(s1, ch, j);
    }
  }

  // ---------- fork and isolation ----------

  ghost function ForkSpace(s: Sys, par: int, ch: int): Maybe<Sys>
    requires SysInv(s) && par in s.dirs && ch !in s.dirs
  {
    NewDirectoryStep(s, ch);
    match NewDirectory(s, ch)
    case Panic => Panic
    case Done(s1) => CopyTables(s1, par, ch, FIRST)
  }

  /** fork fails exactly when there are fewer frames than a directory, the parent's tables and the parent's mapped pages
      need.  Otherwise the child sees exactly the parent's private pages, flags of both levels and words alike, its
      directory has the parent's flags, and no other process sees a change. */
  lemma ForkCopies(s: Sys, par: int, ch: int)
    requires SysInv(s) && par in s.dirs && ch !in s.dirs
    ensures ForkSpace(s, par, ch).Panic? <==> Room(s) < 1 + Needed(s, par, FIRST)
    ensures ForkSpace(s, par, ch).Done? ==>
              var s' := ForkSpace(s, par, ch).value;
              && SysInv(s') && ch in s'.dirs && SameOthers(s, s', ch) && OtherDirs(s, s', ch)
              && (forall v {:trigger PageOf(s', ch, v)} :: Private(v) ==> PageOf(s', ch, v) == PageOf(s, par, v))
              && (forall i {:trigger DirFlags(s', ch, i)} :: FIRST <= i < LAST ==> DirFlags(s', ch, i) == DirFlags(s, par, i))
  {
    hide SysInv, PageOf, PdeOf, Room, NewDirectory, CopyTables, Needed;
    AllocRoom(s);
    NewDirectoryStep(s, ch);
    if NewDirectory(s, ch).Done? {
      var s1 := NewDirectory(s, ch).value;
      CopyTablesStep(s1, par, ch, FIRST);
      NeededStays(s, s1, par, FIRST);
      if ForkSpace(s, par, ch).Done? {
        ForkPages(s, s1, ForkSpace(s, par, ch).value, par, ch);
        OtherDirsTrans(s, s1, ForkSpace(s, par, ch).value, ch);
      }
    }
  }

  lemma ForkPages(s: Sys, s1: Sys, s': Sys, par: int, ch: int)
    requires par in s.dirs && par != ch && SameOthers(s, s1, ch) && OtherDirs(s, s1, ch) && par in s1.dirs
    requires KeptBelow(s1, s', ch, FIRST) && CopiedFrom(s1, s', par, ch, FIRST)
    ensures SameOthers(s, s', ch)
    ensures forall v {:trigger PageOf(s', ch, v)} :: Private(v) ==> PageOf(s', ch, v) == PageOf(s, par, v)
    ensures forall i {:trigger DirFlags(s', ch, i)} :: FIRST <= i < LAST ==> DirFlags(s', ch, i) == DirFlags(s, par, i)
  {
    hide PageOf, PdeOf;
    forall q, v {:trigger PageOf(s', q, v)} | q != ch && Private(v)
      ensures PageOf(s', q, v) == PageOf(s, q, v)
    {
      assert PageOf(s', q, v) == PageOf(s1, q, v);
    }
    forall v {:trigger PageOf(s', ch, v)} | Private(v)
      ensures PageOf(s', ch, v) == PageOf(s, par, v)
    {
      assert PageOf(s1, par, v) == PageOf(s, par, v);
    }
    forall i {:trigger DirFlags(s', ch, i)} | FIRST <= i < LAST
      ensures DirFlags(s', ch, i) == DirFlags(s, par, i)
    {
      assert PdeOf(s1, par, i) == PdeOf(s, par, i);
    }
  }

  /** A user store through page vpn of process pid. */
  function UserStore(s: Sys, pid: int, vpn: int, k: nat, w: int): Sys
    requires PageOf(s, pid, vpn).Mapping? && k < |PageOf(s, pid, vpn).words|
  {
    DoWrite(s, FrameOf(PteOf(s, pid, vpn)), PageOf(s, pid, vpn).words[k := w])
  }

  /** In every state that keeps the invariant a store is seen through the page it went to and nowhere else:
      not by another process and not at another address. */
  lemma StoreIsIsolated(s: Sys, pid: int, vpn: int, k: nat, w: int)
    requires SysInv(s) && Private(vpn) && PageOf(s, pid, vpn).Mapping? && k < WORDS
    ensures |PageOf(s, pid, vpn).words| == WORDS
    ensures var s' := UserStore(s, pid, vpn, k, w);
            && SysInv(s') && SameBut(s, s', pid, vpn)
            && PageOf(s', pid, vpn) == PageOf(s, pid, vpn).(words := PageOf(s, pid, vpn).words[k := w])
  {
    var f := FrameOf(PteOf(s, pid, vpn));
    assert Owned(s, Leaf(pid, vpn)) && InUse(s, f);
    WriteStep(s, f, PageOf(s, pid, vpn).words[k := w]);
  }

  /** Parent and child share no frame: their pages lie in frames with different owners. */
  lemma ForkedFramesDiffer(s: Sys, p: int, q: int, u: int, v: int)
    requires SysInv(s) && p in s.dirs && q in s.dirs && p != q && Private(u) && Private(v)
    requires Present(PteOf(s, p, u)) && Present(PteOf(s, q, v))
    ensures FrameOf(PteOf(s, p, u)) != FrameOf(PteOf(s, q, v))
  {
    ExactlyOneOwner(s, Leaf(p, u), Leaf(q, v));
  }
}
