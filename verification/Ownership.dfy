/** Who owns which frame.  Every frame handed out by the allocator has exactly one role; every directory,
    table and leaf reached from a live process is in the frame whose role says so. */
module Ownership {
  import opened Basics
  import opened Frames
  import opened Paging

  const FIRST := 512   // 0x80000000 >> 22
  const LAST := 960    // 0xF0000000 >> 22

  datatype Role =
    | Held                         // allocated, not linked anywhere yet
    | Kernel                       // the global directory and the kernel's own tables
    | Dir(pid: int)
    | Table(pid: int, i: int)
    | Leaf(pid: int, vpn: int)

  /** Memory with the directory of each process.  `free` and `roles` record what the memory already implies:
      the free list in order and the role of each frame in use. */
  datatype Sys = Sys(phys: Phys, lo: int, global: int, dirs: map<int, int>, free: seq<int>, roles: map<int, Role>)

  predicate Private(vpn: int) {
    FIRST * WORDS <= vpn < LAST * WORDS
  }

  function PdeOf(s: Sys, pid: int, i: int): int
    requires pid in s.dirs
  {
    WordAt(s.phys.mem, s.dirs[pid], i)
  }

  function PteOf(s: Sys, pid: int, vpn: int): int
    requires pid in s.dirs
  {
    Pte(s.phys.mem, s.dirs[pid], vpn)
  }

  datatype Place = Nowhere | At(frame: int)

  /** The frame in which role r is found by following the processes' page tables. */
  function Spot(s: Sys, r: Role): Place {
    match r
    case Held => Nowhere
    case Kernel => Nowhere
    case Dir(pid) => if pid in s.dirs then At(s.dirs[pid]) else Nowhere
    case Table(pid, i) =>
      if pid in s.dirs && FIRST <= i < LAST && Present(PdeOf(s, pid, i)) then At(FrameOf(PdeOf(s, pid, i))) else Nowhere
    case Leaf(pid, vpn) =>
      if pid in s.dirs && Private(vpn) && Present(PteOf(s, pid, vpn)) then At(FrameOf(PteOf(s, pid, vpn))) else Nowhere
  }

  ghost predicate Owned(s: Sys, r: Role) {
    Spot(s, r).At? ==> Spot(s, r).frame in s.roles && s.roles[Spot(s, r).frame] == r
  }

  ghost predicate RoleOk(s: Sys, f: int) {
    f in s.roles ==> s.roles[f].Held? || s.roles[f].Kernel? || Spot(s, s.roles[f]) == At(f)
  }

  ghost predicate InUse(s: Sys, f: int) {
    f in s.roles <==> Taken(s.phys, s.lo, s.free, f)
  }

  /** A private directory word without a table is 0. */
  ghost predicate GoodPde(s: Sys, pid: int, i: int) {
    pid in s.dirs ==> 0 <= PdeOf(s, pid, i) && (FIRST <= i < LAST && !Present(PdeOf(s, pid, i)) ==> PdeOf(s, pid, i) == 0)
  }

  /** The directory new processes start from maps nothing in the private range. */
  ghost predicate GlobalOk(s: Sys) {
    && s.global in s.roles && s.roles[s.global] == Kernel
    && (forall i {:trigger WordAt(s.phys.mem, s.global, i)} ::
          0 <= WordAt(s.phys.mem, s.global, i) && (FIRST <= i < LAST ==> WordAt(s.phys.mem, s.global, i) == 0))
  }

  ghost predicate SysInv(s: Sys) {
    && Frames.Inv(s.phys, s.lo, s.free)
    && GlobalOk(s)
    && (forall f {:trigger InUse(s, f)} :: InUse(s, f))
    && (forall r {:trigger Owned(s, r)} :: Owned(s, r))
    && (forall f {:trigger RoleOk(s, f)} :: RoleOk(s, f))
    && (forall pid, i {:trigger GoodPde(s, pid, i)} :: GoodPde(s, pid, i))
  }

  /** A page as the process sees it: the flags of its directory word, the flags of its table word, and its contents. */
  datatype Page = Absent | Mapping(dir: int, flags: int, words: seq<int>)

  function PageOf(s: Sys, pid: int, vpn: int): Page {
    if pid in s.dirs && Present(PteOf(s, pid, vpn)) && FrameOf(PteOf(s, pid, vpn)) in s.phys.mem
    then Mapping(Flags(PdeOf(s, pid, vpn / WORDS)), Flags(PteOf(s, pid, vpn)), s.phys.mem[FrameOf(PteOf(s, pid, vpn))])
    else Absent
  }

  // ---------- exactly one owner ----------

  /** The statement of the invariant without its bookkeeping: a frame found in two places is one place, and no
      frame in a page table is on the free list. */
  lemma ExactlyOneOwner(s: Sys, r1: Role, r2: Role)
    requires SysInv(s) && Spot(s, r1).At?
    ensures Spot(s, r1) == Spot(s, r2) ==> r1 == r2
    ensures Spot(s, r1).frame !in s.free && Taken(s.phys, s.lo, s.free, Spot(s, r1).frame)
  {
    assert Owned(s, r1) && Owned(s, r2) && InUse(s, Spot(s, r1).frame);
  }

  /** No frame is lost: one that is in use and not held or the kernel's is where its role says. */
  lemma NoFrameLost(s: Sys, f: int)
    requires SysInv(s) && s.lo <= f < s.phys.avail / PAGE && f !in s.free
    ensures f in s.roles && (s.roles[f].Held? || s.roles[f].Kernel? || Spot(s, s.roles[f]) == At(f))
  {
    assert InUse(s, f) && RoleOk(s, f);
  }

  // ---------- changes to frames that hold no page-table words ----------

  /** Frame f is not the directory or a table of a process. */
  predicate NotATable(s: Sys, f: int) {
    f in s.roles ==> !s.roles[f].Dir? && !s.roles[f].Table?
  }

  ghost predicate OnlyFrame(s: Sys, s': Sys, f: int) {
    && s'.dirs == s.dirs && s'.global == s.global && s'.lo == s.lo
    && (forall g :: g != f ==> (g in s'.phys.mem <==> g in s.phys.mem))
    && (forall g :: g != f && g in s.phys.mem ==> s'.phys.mem[g] == s.phys.mem[g])
  }

  lemma SameTables(s: Sys, s': Sys, f: int, pid: int, i: int)
    requires SysInv(s) && OnlyFrame(s, s', f) && NotATable(s, f) && pid in s.dirs
    ensures PdeOf(s', pid, i) == PdeOf(s, pid, i)
    ensures forall vpn :: Private(vpn) ==> PteOf(s', pid, vpn) == PteOf(s, pid, vpn)
  {
    assert Owned(s, Dir(pid));
    assert s.dirs[pid] != f;
    forall vpn | Private(vpn)
      ensures PteOf(s', pid, vpn) == PteOf(s, pid, vpn)
    {
      assert Owned(s, Table(pid, vpn / WORDS));
      assert FIRST <= vpn / WORDS < LAST;
    }
  }

  lemma SameSpots(s: Sys, s': Sys, f: int, r: Role)
    requires SysInv(s) && OnlyFrame(s, s', f) && NotATable(s, f)
    ensures Spot(s', r) == Spot(s, r)
  {
    match r
    case Held =>
    case Kernel =>
    case Dir(_) =>
    case Table(pid, i) => if pid in s.dirs { SameTables(s, s', f, pid, i); }
    case Leaf(pid, vpn) => if pid in s.dirs { SameTables(s, s', f, pid, 0); }
  }

  /** The ownership half of the invariant follows from the spots and the roles. */
  ghost predicate Books(s: Sys) {
    && (forall r {:trigger Owned(s, r)} :: Owned(s, r))
    && (forall f {:trigger RoleOk(s, f)} :: RoleOk(s, f))
  }

  lemma BooksStay(s: Sys, s': Sys, f: int)
    requires SysInv(s) && OnlyFrame(s, s', f) && NotATable(s, f)
    requires forall g :: g != f ==> (g in s'.roles <==> g in s.roles)
    requires forall g :: g != f && g in s.roles ==> s'.roles[g] == s.roles[g]
    requires (f in s.roles && s.roles[f].Leaf?) ==> f in s'.roles && s'.roles[f] == s.roles[f]
    requires !(f in s.roles && s.roles[f].Leaf?) ==> f !in s'.roles || s'.roles[f].Held? || s'.roles[f].Kernel?
    ensures Books(s')
    ensures forall pid, i {:trigger GoodPde(s', pid, i)} :: GoodPde(s', pid, i)
  {
    hide Frames.Inv, GlobalOk;
    forall r {:trigger Owned(s', r)}
      ensures Owned(s', r)
    {
      SameSpots(s, s', f, r);
      assert Owned(s, r);
    }
    forall g {:trigger RoleOk(s', g)}
      ensures RoleOk(s', g)
    {
      assert RoleOk(s, g);
      if g in s'.roles { SameSpots(s, s', f, s'.roles[g]); }
    }
    forall pid, i {:trigger GoodPde(s', pid, i)}
      ensures GoodPde(s', pid, i)
    {
      assert GoodPde(s, pid, i);
      if pid in s.dirs { SameTables(s, s', f, pid, i); }
    }
  }
}
