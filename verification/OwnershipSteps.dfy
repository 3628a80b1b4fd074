/** The elementary changes every virtual-memory operation is made of, each with the proof that it keeps
    every frame owned exactly once and changes at most the one page it names. */
module OwnershipSteps {
  import opened Basics
  import opened Frames
  import opened Paging
  import opened Ownership

  // ---------- allocate, free and fill frames ----------

  function DoAlloc(s: Sys): Maybe<(Sys, int)>
    requires CanAlloc(s.phys)
  {
    match Alloc(s.phys)
    case Panic => Panic
    case Done((p, f)) => Done((s.(phys := p, free := NextFree(s.free), roles := s.roles[f := Held]), f))
  }

  function DoFree(s: Sys, f: int): Sys
    requires f in s.phys.mem && |s.phys.mem[f]| == WORDS
  {
    s.(phys := Dealloc(s.phys, f), free := [f] + s.free, roles := s.roles - {f})
  }

  function DoWrite(s: Sys, f: int, w: seq<int>): Sys {
    s.(phys := s.phys.(mem := s.phys.mem[f := w]))
  }

  /** A page of a process is untouched when the only frame changed is not a table and not that page's. */
  lemma SamePage(s: Sys, s': Sys, f: int, pid: int, vpn: int)
    requires SysInv(s) && OnlyFrame(s, s', f) && NotATable(s, f) && Private(vpn)
    requires f in s.roles ==> s.roles[f] != Leaf(pid, vpn)
    ensures PageOf(s', pid, vpn) == PageOf(s, pid, vpn)
    ensures pid in s.dirs ==> PteOf(s', pid, vpn) == PteOf(s, pid, vpn)
  {
    if pid in s.dirs {
      SameTables(s, s', f, pid, vpn / WORDS);
      assert Owned(s, Leaf(pid, vpn));
    }
  }

  /** All private pages of all processes, except possibly page vpn of process pid, are the same in s'. */
  ghost predicate SameBut(s: Sys, s': Sys, pid: int, vpn: int) {
    && s'.dirs == s.dirs && s'.global == s.global && s'.lo == s.lo
    && (forall q, v {:trigger PageOf(s', q, v)} :: Private(v) && (q, v) != (pid, vpn) ==> PageOf(s', q, v) == PageOf(s, q, v))
  }

  ghost predicate SamePages(s: Sys, s': Sys) {
    && s'.dirs == s.dirs && s'.global == s.global && s'.lo == s.lo
    && (forall q, v {:trigger PageOf(s', q, v)} :: Private(v) ==> PageOf(s', q, v) == PageOf(s, q, v))
  }

  /** All private directory words are the same. */
  ghost predicate SameDirs(s: Sys, s': Sys) {
    && s'.dirs == s.dirs
    && (forall q, i {:trigger PdeOf(s', q, i)} :: q in s.dirs ==> PdeOf(s', q, i) == PdeOf(s, q, i))
  }

  /** All directory words of processes other than pid are the same. */
  ghost predicate OtherDirs(s: Sys, s': Sys, pid: int) {
    forall q, i {:trigger PdeOf(s', q, i)} :: q != pid && q in s.dirs && q in s'.dirs ==> PdeOf(s', q, i) == PdeOf(s, q, i)
  }

  lemma DirsStay(s: Sys, s': Sys, f: int)
    requires SysInv(s) && OnlyFrame(s, s', f) && NotATable(s, f)
    ensures SameDirs(s, s')
  {
    forall q, i {:trigger PdeOf(s', q, i)} | q in s.dirs
      ensures PdeOf(s', q, i) == PdeOf(s, q, i)
    {
      SameTables(s, s', f, q, i);
    }
  }

  lemma GlobalStays(s: Sys, s': Sys, f: int)
    requires GlobalOk(s) && OnlyFrame(s, s', f) && f != s.global
    requires s.global in s'.roles && s'.roles[s.global] == Kernel
    ensures GlobalOk(s')
  {
    forall i {:trigger WordAt(s'.phys.mem, s'.global, i)}
      ensures WordAt(s'.phys.mem, s'.global, i) == WordAt(s.phys.mem, s.global, i)
    {
    }
  }

  lemma AllocStep(s: Sys)
    requires SysInv(s)
    ensures CanAlloc(s.phys)
    ensures DoAlloc(s).Panic? <==> s.free == [] && s.phys.avail == s.phys.limit
    ensures DoAlloc(s).Done? ==>
              var (s', f) := DoAlloc(s).value;
              && SysInv(s') && SamePages(s, s') && OnlyFrame(s, s', f)
              && f !in s.roles && s'.roles == s.roles[f := Held] && f in s'.phys.mem && s'.phys.mem[f] == Zero()
  {
    AllocResult(s.phys, s.lo, s.free);
    if DoAlloc(s).Done? {
      var (s', f) := DoAlloc(s).value;
      assert InUse(s, f) && InUse(s, s.global);
      assert OnlyFrame(s, s', f);
      BooksStay(s, s', f);
      GlobalStays(s, s', f);
      forall g {:trigger InUse(s', g)}
        ensures InUse(s', g)
      {
        assert InUse(s, g);
      }
      forall q, v {:trigger PageOf(s', q, v)} | Private(v)
        ensures PageOf(s', q, v) == PageOf(s, q, v)
      {
        SamePage(s, s', f, q, v);
      }
    }
  }

  lemma FreeStep(s: Sys, f: int)
    requires SysInv(s) && f in s.roles && s.roles[f] == Held
    ensures f in s.phys.mem && |s.phys.mem[f]| == WORDS
    ensures SysInv(DoFree(s, f)) && SamePages(s, DoFree(s, f)) && OnlyFrame(s, DoFree(s, f), f)
  {
    assert InUse(s, f);
    DeallocResult(s.phys, s.lo, s.free, f);
    var s' := DoFree(s, f);
    BooksStay(s, s', f);
    GlobalStays(s, s', f);
    forall g {:trigger InUse(s', g)}
      ensures InUse(s', g)
    {
      assert InUse(s, g);
    }
    forall q, v {:trigger PageOf(s', q, v)} | Private(v)
      ensures PageOf(s', q, v) == PageOf(s, q, v)
    {
      SamePage(s, s', f, q, v);
    }
  }

  /** Filling a frame that is held or is one process's leaf. */
  lemma WriteStep(s: Sys, f: int, w: seq<int>)
    requires SysInv(s) && f in s.roles && (s.roles[f].Held? || s.roles[f].Leaf?) && |w| == WORDS
    ensures f in s.phys.mem && SysInv(DoWrite(s, f, w)) && OnlyFrame(s, DoWrite(s, f, w), f)
    ensures s.roles[f].Held? ==> SamePages(s, DoWrite(s, f, w))
    ensures s.roles[f].Leaf? ==>
              && SameBut(s, DoWrite(s, f, w), s.roles[f].pid, s.roles[f].vpn)
              && PageOf(s, s.roles[f].pid, s.roles[f].vpn).Mapping?
              && PageOf(DoWrite(s, f, w), s.roles[f].pid, s.roles[f].vpn) == PageOf(s, s.roles[f].pid, s.roles[f].vpn).(words := w)
  {
    assert InUse(s, f);
    var s' := DoWrite(s, f, w);
    WriteKeepsInv(s.phys, s.lo, s.free, f, w);
    BooksStay(s, s', f);
    GlobalStays(s, s', f);
    forall g {:trigger InUse(s', g)}
      ensures InUse(s', g)
    {
      assert InUse(s, g);
    }
    forall q, v {:trigger PageOf(s', q, v)} | Private(v) && (s.roles[f].Leaf? ==> (q, v) != (s.roles[f].pid, s.roles[f].vpn))
      ensures PageOf(s', q, v) == PageOf(s, q, v)
    {
      SamePage(s, s', f, q, v);
    }
    if s.roles[f].Leaf? {
      assert RoleOk(s, f);
      SameTables(s, s', f, s.roles[f].pid, s.roles[f].vpn / WORDS);
    }
  }

  // ---------- one word of a page table ----------

  /** The table of page vpn. */
  function TableOf(s: Sys, pid: int, vpn: int): int
    requires pid in s.dirs
  {
    FrameOf(PdeOf(s, pid, vpn / WORDS))
  }

  ghost predicate HasTable(s: Sys, pid: int, vpn: int) {
    pid in s.dirs && Private(vpn) && Present(PdeOf(s, pid, vpn / WORDS))
  }

  lemma TableFrame(s: Sys, pid: int, vpn: int)
    requires SysInv(s) && HasTable(s, pid, vpn)
    ensures var t := TableOf(s, pid, vpn);
            && t in s.roles && s.roles[t] == Table(pid, vpn / WORDS) && HasWord(s.phys, t, vpn % WORDS) && t !in s.free
            && WordAt(s.phys.mem, t, vpn % WORDS) == PteOf(s, pid, vpn)
  {
    assert Owned(s, Table(pid, vpn / WORDS));
    assert InUse(s, TableOf(s, pid, vpn));
  }

  function DoSetPte(s: Sys, pid: int, vpn: int, w: int): Sys
    requires pid in s.dirs && HasWord(s.phys, TableOf(s, pid, vpn), vpn % WORDS)
  {
    s.(phys := SetWord(s.phys, TableOf(s, pid, vpn), vpn % WORDS, w))
  }

  /** Writing the word of page vpn changes that page's word and no other directory or table word. */
  lemma SetPteWords(s: Sys, pid: int, vpn: int, w: int, q: int, v: int)
    requires SysInv(s) && HasTable(s, pid, vpn) && q in s.dirs && HasWord(s.phys, TableOf(s, pid, vpn), vpn % WORDS)
    ensures forall i :: PdeOf(DoSetPte(s, pid, vpn, w), q, i) == PdeOf(s, q, i)
    ensures Private(v) ==> PteOf(DoSetPte(s, pid, vpn, w), q, v) == if q == pid && v == vpn then w else PteOf(s, q, v)
  {
    TableFrame(s, pid, vpn);
    var t := TableOf(s, pid, vpn);
    assert Owned(s, Dir(q));
    if Private(v) {
      assert Owned(s, Table(q, v / WORDS));
      SetWordReads(s.phys, t, vpn % WORDS, w, TableOf(s, q, v), v % WORDS);
    }
  }

  lemma SetPteSpots(s: Sys, pid: int, vpn: int, w: int, r: Role)
    requires SysInv(s) && HasTable(s, pid, vpn) && HasWord(s.phys, TableOf(s, pid, vpn), vpn % WORDS)
    ensures Spot(DoSetPte(s, pid, vpn, w), r) ==
            if r == Leaf(pid, vpn) then (if Present(w) then At(FrameOf(w)) else Nowhere) else Spot(s, r)
  {
    match r
    case Held =>
    case Kernel =>
    case Dir(_) =>
    case Table(q, i) => if q in s.dirs { SetPteWords(s, pid, vpn, w, q, 0); }
    case Leaf(q, v) => if q in s.dirs { SetPteWords(s, pid, vpn, w, q, v); }
  }

  /** Everything but the ownership books after a table word changes. */
  lemma SetPteRest(s: Sys, pid: int, vpn: int, w: int)
    requires SysInv(s) && HasTable(s, pid, vpn)
    ensures HasWord(s.phys, TableOf(s, pid, vpn), vpn % WORDS)
    ensures var s' := DoSetPte(s, pid, vpn, w);
            && Frames.Inv(s'.phys, s'.lo, s'.free) && GlobalOk(s')
            && (forall f {:trigger Taken(s'.phys, s'.lo, s'.free, f)} :: Taken(s'.phys, s'.lo, s'.free, f) <==> Taken(s.phys, s.lo, s.free, f))
            && (forall q, i {:trigger GoodPde(s', q, i)} :: GoodPde(s', q, i))
  {
    TableFrame(s, pid, vpn);
    var t, s' := TableOf(s, pid, vpn), DoSetPte(s, pid, vpn, w);
    WriteKeepsInv(s.phys, s.lo, s.free, t, s.phys.mem[t][vpn % WORDS := w]);
    GlobalStays(s, s', t);
    forall q, i {:trigger GoodPde(s', q, i)}
      ensures GoodPde(s', q, i)
    {
      assert GoodPde(s, q, i);
      if q in s.dirs { SetPteWords(s, pid, vpn, w, q, 0); }
    }
  }

  lemma SetPtePages(s: Sys, pid: int, vpn: int, w: int)
    requires SysInv(s) && HasTable(s, pid, vpn)
    ensures HasWord(s.phys, TableOf(s, pid, vpn), vpn % WORDS)
    ensures SameBut(s, DoSetPte(s, pid, vpn, w), pid, vpn)
    ensures PteOf(DoSetPte(s, pid, vpn, w), pid, vpn) == w
    ensures forall i :: PdeOf(DoSetPte(s, pid, vpn, w), pid, i) == PdeOf(s, pid, i)
  {
    TableFrame(s, pid, vpn);
    var s' := DoSetPte(s, pid, vpn, w);
    SetPteWords(s, pid, vpn, w, pid, vpn);
    forall q, v {:trigger PageOf(s', q, v)} | Private(v) && (q, v) != (pid, vpn)
      ensures PageOf(s', q, v) == PageOf(s, q, v)
    {
      if q in s.dirs {
        SetPteWords(s, pid, vpn, w, q, v);
        assert Owned(s, Leaf(q, v));
      }
    }
  }

  /** Only the place of role r0 differs between s and s1. */
  ghost predicate SpotsBut(s: Sys, s1: Sys, r0: Role) {
    forall r {:trigger Spot(s1, r)} :: r != r0 ==> Spot(s1, r) == Spot(s, r)
  }

  /** Frame f takes up role r0, or gives it up and is held, together with the change of place. */
  lemma Relabel(s: Sys, s1: Sys, f: int, r0: Role, role: Role)
    requires Books(s) && SpotsBut(s, s1, r0) && s1.roles == s.roles && f in s.roles && !r0.Held? && !r0.Kernel?
    requires (s.roles[f] == Held && role == r0 && Spot(s, r0) == Nowhere && Spot(s1, r0) == At(f)) ||
             (s.roles[f] == r0 && role == Held && Spot(s1, r0) == Nowhere)
    ensures Books(s1.(roles := s.roles[f := role]))
  {
    var s' := s1.(roles := s.roles[f := role]);
    forall r {:trigger Owned(s', r)}
      ensures Owned(s', r)
    {
      assert Spot(s', r) == Spot(s1, r) && Owned(s, r);
    }
    forall g {:trigger RoleOk(s', g)}
      ensures RoleOk(s', g)
    {
      assert RoleOk(s, g) && RoleOk(s, f) && Owned(s, r0);
      if g in s'.roles {
        assert Spot(s', s'.roles[g]) == Spot(s1, s'.roles[g]);
      }
    }
  }

  /** Changing the role of one frame in use changes nothing else the invariant speaks of. */
  lemma RolesOnly(s1: Sys, s: Sys, f: int, role: Role)
    requires Frames.Inv(s1.phys, s1.lo, s1.free) && GlobalOk(s1) && f in s1.roles && f != s1.global
    requires forall g {:trigger InUse(s1, g)} :: InUse(s1, g)
    requires forall q, i {:trigger GoodPde(s1, q, i)} :: GoodPde(s1, q, i)
    requires s == s1.(roles := s1.roles[f := role]) && Books(s)
    ensures SysInv(s)
  {
    forall g {:trigger InUse(s, g)}
      ensures InUse(s, g)
    {
      assert InUse(s1, g);
    }
    forall q, i {:trigger GoodPde(s, q, i)}
      ensures GoodPde(s, q, i)
    {
      assert GoodPde(s1, q, i);
    }
  }

  lemma SetPteRelabel(s: Sys, pid: int, vpn: int, w: int, f: int, role: Role)
    requires SysInv(s) && HasTable(s, pid, vpn) && f in s.roles
    requires (s.roles[f] == Held && role == Leaf(pid, vpn) && !Present(PteOf(s, pid, vpn)) && Present(w) && FrameOf(w) == f) ||
             (s.roles[f] == Leaf(pid, vpn) && role == Held && !Present(w))
    ensures HasWord(s.phys, TableOf(s, pid, vpn), vpn % WORDS)
    ensures SysInv(DoSetPte(s, pid, vpn, w).(roles := s.roles[f := role]))
  {
    SetPteRest(s, pid, vpn, w);
    var s1 := DoSetPte(s, pid, vpn, w);
    forall r {:trigger Spot(s1, r)}
      ensures r != Leaf(pid, vpn) ==> Spot(s1, r) == Spot(s, r)
    {
      SetPteSpots(s, pid, vpn, w, r);
    }
    SetPteSpots(s, pid, vpn, w, Leaf(pid, vpn));
    forall g {:trigger InUse(s1, g)}
      ensures InUse(s1, g)
    {
      assert InUse(s, g);
    }
    hide SysInv, Frames.Inv, Owned, RoleOk, InUse, GoodPde, DoSetPte;
    SysBooks(s);
    Relabel(s, s1, f, Leaf(pid, vpn), role);
    RolesOnly(s1, s1.(roles := s.roles[f := role]), f, role);
  }

  lemma SysBooks(s: Sys)
    requires SysInv(s)
    ensures Books(s)
  {
  }

  /** A held frame becomes the leaf of an unmapped page. */
  lemma LinkLeaf(s: Sys, pid: int, vpn: int, f: int, flags: int)
    requires SysInv(s) && HasTable(s, pid, vpn) && !Present(PteOf(s, pid, vpn))
    requires f in s.roles && s.roles[f] == Held && 0 <= flags < PAGE && Present(flags)
    ensures HasWord(s.phys, TableOf(s, pid, vpn), vpn % WORDS) && f in s.phys.mem
    ensures var s' := DoSetPte(s, pid, vpn, PAGE * f + flags).(roles := s.roles[f := Leaf(pid, vpn)]);
            && SysInv(s') && SameBut(s, s', pid, vpn)
            && PageOf(s', pid, vpn) == Mapping(Flags(PdeOf(s, pid, vpn / WORDS)), flags, s.phys.mem[f])
            && (forall i :: PdeOf(s', pid, i) == PdeOf(s, pid, i))
  {
    var w := PAGE * f + flags;
    WordParts(f, flags);
    SetPtePages(s, pid, vpn, w);
    SetPteRelabel(s, pid, vpn, w, f, Leaf(pid, vpn));
    TableFrame(s, pid, vpn);
    assert InUse(s, f);
    var s1 := DoSetPte(s, pid, vpn, w);
    var s' := s1.(roles := s.roles[f := Leaf(pid, vpn)]);
    hide SysInv, Frames.Inv;
    RolesInvisible(s1, s');
  }

  /** Roles are bookkeeping: they do not show in any page. */
  lemma RolesInvisible(s1: Sys, s': Sys)
    requires s' == s1.(roles := s'.roles)
    ensures forall q, v {:trigger PageOf(s', q, v)} :: PageOf(s', q, v) == PageOf(s1, q, v)
    ensures forall q, v {:trigger PteOf(s', q, v)} :: q in s'.dirs ==> PteOf(s', q, v) == PteOf(s1, q, v)
    ensures forall q, i {:trigger PdeOf(s', q, i)} :: q in s'.dirs ==> PdeOf(s', q, i) == PdeOf(s1, q, i)
  {
  }

  /** The leaf of a mapped page is unlinked and held. */
  lemma UnlinkLeaf(s: Sys, pid: int, vpn: int)
    requires SysInv(s) && HasTable(s, pid, vpn) && Present(PteOf(s, pid, vpn))
    ensures HasWord(s.phys, TableOf(s, pid, vpn), vpn % WORDS)
    ensures var f := FrameOf(PteOf(s, pid, vpn));
            var s' := DoSetPte(s, pid, vpn, 0).(roles := s.roles[f := Held]);
            && f in s.roles && s.roles[f] == Leaf(pid, vpn)
            && SysInv(s') && SameBut(s, s', pid, vpn) && PteOf(s', pid, vpn) == 0
            && (forall i :: PdeOf(s', pid, i) == PdeOf(s, pid, i))
  {
    var f := FrameOf(PteOf(s, pid, vpn));
    assert Owned(s, Leaf(pid, vpn));
    SetPtePages(s, pid, vpn, 0);
    SetPteRelabel(s, pid, vpn, 0, f, Held);
    var s1 := DoSetPte(s, pid, vpn, 0);
    hide SysInv, Frames.Inv;
    RolesInvisible(s1, s1.(roles := s.roles[f := Held]));
  }

  /** Zeroing the word of a page that is not mapped. */
  lemma ClearPte(s: Sys, pid: int, vpn: int)
    requires SysInv(s) && HasTable(s, pid, vpn) && !Present(PteOf(s, pid, vpn))
    ensures HasWord(s.phys, TableOf(s, pid, vpn), vpn % WORDS)
    ensures SysInv(DoSetPte(s, pid, vpn, 0)) && SamePages(s, DoSetPte(s, pid, vpn, 0))
    ensures PteOf(DoSetPte(s, pid, vpn, 0), pid, vpn) == 0
    ensures forall i :: PdeOf(DoSetPte(s, pid, vpn, 0), pid, i) == PdeOf(s, pid, i)
  {
    SetPteRest(s, pid, vpn, 0);
    SetPtePages(s, pid, vpn, 0);
    var s' := DoSetPte(s, pid, vpn, 0);
    forall r {:trigger Owned(s', r)}
      ensures Owned(s', r)
    {
      SetPteSpots(s, pid, vpn, 0, r);
      assert Owned(s, r);
    }
    forall g {:trigger RoleOk(s', g)}
      ensures RoleOk(s', g)
    {
      assert RoleOk(s, g);
      if g in s.roles { SetPteSpots(s, pid, vpn, 0, s.roles[g]); }
    }
    forall g {:trigger InUse(s', g)}
      ensures InUse(s', g)
    {
      assert InUse(s, g);
    }
    assert PageOf(s', pid, vpn) == PageOf(s, pid, vpn);
  }

  lemma WordParts(f: int, flags: int)
    requires 0 <= flags < PAGE && Present(flags)
    ensures FrameOf(PAGE * f + flags) == f && Flags(PAGE * f + flags) == flags && Present(PAGE * f + flags)
  {
    Parts(flags, f);
  }

  // ---------- one word of a page directory ----------

  function DoSetPde(s: Sys, pid: int, i: int, w: int): Sys
    requires pid in s.dirs && HasWord(s.phys, s.dirs[pid], i)
  {
    s.(phys := SetWord(s.phys, s.dirs[pid], i, w))
  }

  lemma DirFrame(s: Sys, pid: int)
    requires SysInv(s) && pid in s.dirs
    ensures var d := s.dirs[pid];
            d in s.roles && s.roles[d] == Dir(pid) && d in s.phys.mem && |s.phys.mem[d]| == WORDS && d !in s.free
  {
    assert Owned(s, Dir(pid)) && InUse(s, s.dirs[pid]);
  }

  /** No page of table i of the process is mapped. */
  ghost predicate EmptyTable(s: Sys, pid: int, i: int)
    requires pid in s.dirs
  {
    forall vpn {:trigger PteOf(s, pid, vpn)} :: vpn / WORDS == i ==> !Present(PteOf(s, pid, vpn))
  }

  lemma SetPdeWords(s: Sys, pid: int, i: int, w: int, q: int, v: int)
    requires SysInv(s) && pid in s.dirs && FIRST <= i < LAST && HasWord(s.phys, s.dirs[pid], i) && q in s.dirs
    ensures forall j :: PdeOf(DoSetPde(s, pid, i, w), q, j) == if q == pid && j == i then w else PdeOf(s, q, j)
    ensures Private(v) && !(q == pid && v / WORDS == i) ==> PteOf(DoSetPde(s, pid, i, w), q, v) == PteOf(s, q, v)
  {
    assert Owned(s, Dir(pid)) && Owned(s, Dir(q));
    var s' := DoSetPde(s, pid, i, w);
    forall j
      ensures PdeOf(s', q, j) == if q == pid && j == i then w else PdeOf(s, q, j)
    {
      SetWordReads(s.phys, s.dirs[pid], i, w, s.dirs[q], j);
    }
    if Private(v) {
      assert Owned(s, Table(q, v / WORDS));
      SetWordReads(s.phys, s.dirs[pid], i, w, TableOf(s, q, v), v % WORDS);
    }
  }

  lemma SetPdeOthers(s: Sys, pid: int, i: int, w: int)
    requires SysInv(s) && pid in s.dirs && FIRST <= i < LAST && HasWord(s.phys, s.dirs[pid], i)
    ensures OtherDirs(s, DoSetPde(s, pid, i, w), pid)
  {
    var s' := DoSetPde(s, pid, i, w);
    forall q, j {:trigger PdeOf(s', q, j)} | q != pid && q in s.dirs
      ensures PdeOf(s', q, j) == PdeOf(s, q, j)
    {
      SetPdeWords(s, pid, i, w, q, 0);
    }
  }

  lemma SetPdeSpots(s: Sys, pid: int, i: int, w: int, r: Role)
    requires SysInv(s) && pid in s.dirs && FIRST <= i < LAST && HasWord(s.phys, s.dirs[pid], i)
    requires EmptyTable(s, pid, i) && EmptyTable(DoSetPde(s, pid, i, w), pid, i)
    ensures Spot(DoSetPde(s, pid, i, w), r) ==
            if r == Table(pid, i) then (if Present(w) then At(FrameOf(w)) else Nowhere) else Spot(s, r)
  {
    match r
    case Held =>
    case Kernel =>
    case Dir(_) =>
    case Table(q, j) => if q in s.dirs { SetPdeWords(s, pid, i, w, q, 0); }
    case Leaf(q, v) =>
      if q in s.dirs && Private(v) {
        SetPdeWords(s, pid, i, w, q, v);
        if q == pid && v / WORDS == i {
          assert !Present(PteOf(s, pid, v)) && !Present(PteOf(DoSetPde(s, pid, i, w), pid, v));
        }
      }
  }

  lemma SetPdeRest(s: Sys, pid: int, i: int, w: int)
    requires SysInv(s) && pid in s.dirs && FIRST <= i < LAST && 0 <= w && (Present(w) || w == 0)
    ensures HasWord(s.phys, s.dirs[pid], i)
    ensures var s' := DoSetPde(s, pid, i, w);
            && Frames.Inv(s'.phys, s'.lo, s'.free) && GlobalOk(s')
            && (forall f {:trigger InUse(s', f)} :: InUse(s', f))
            && (forall q, j {:trigger GoodPde(s', q, j)} :: GoodPde(s', q, j))
  {
    DirFrame(s, pid);
    var d, s' := s.dirs[pid], DoSetPde(s, pid, i, w);
    WriteKeepsInv(s.phys, s.lo, s.free, d, s.phys.mem[d][i := w]);
    GlobalStays(s, s', d);
    forall f {:trigger InUse(s', f)}
      ensures InUse(s', f)
    {
      assert InUse(s, f);
    }
    forall q, j {:trigger GoodPde(s', q, j)}
      ensures GoodPde(s', q, j)
    {
      assert GoodPde(s, q, j);
      if q in s.dirs { SetPdeWords(s, pid, i, w, q, 0); }
    }
  }

  lemma SetPdePages(s: Sys, pid: int, i: int, w: int)
    requires SysInv(s) && pid in s.dirs && FIRST <= i < LAST && HasWord(s.phys, s.dirs[pid], i)
    requires EmptyTable(s, pid, i) && EmptyTable(DoSetPde(s, pid, i, w), pid, i)
    ensures SamePages(s, DoSetPde(s, pid, i, w))
  {
    var s' := DoSetPde(s, pid, i, w);
    DirFrame(s, pid);
    forall q, v {:trigger PageOf(s', q, v)} | Private(v)
      ensures PageOf(s', q, v) == PageOf(s, q, v)
    {
      if q in s.dirs {
        SetPdeWords(s, pid, i, w, q, v);
        assert Owned(s, Leaf(q, v));
        if q == pid && v / WORDS == i {
          assert !Present(PteOf(s, pid, v)) && !Present(PteOf(s', pid, v));
        }
      }
    }
  }

  lemma SetPdeRelabel(s: Sys, pid: int, i: int, w: int, f: int, role: Role)
    requires SysInv(s) && pid in s.dirs && FIRST <= i < LAST && 0 <= w && (Present(w) || w == 0) && f in s.roles && HasWord(s.phys, s.dirs[pid], i)
    requires EmptyTable(s, pid, i) && EmptyTable(DoSetPde(s, pid, i, w), pid, i)
    requires (s.roles[f] == Held && role == Table(pid, i) && !Present(PdeOf(s, pid, i)) && Present(w) && FrameOf(w) == f) ||
             (s.roles[f] == Table(pid, i) && role == Held && !Present(w))
    ensures SysInv(DoSetPde(s, pid, i, w).(roles := s.roles[f := role]))
  {
    SetPdeRest(s, pid, i, w);
    var s1 := DoSetPde(s, pid, i, w);
    forall r {:trigger Spot(s1, r)}
      ensures r != Table(pid, i) ==> Spot(s1, r) == Spot(s, r)
    {
      SetPdeSpots(s, pid, i, w, r);
    }
    SetPdeSpots(s, pid, i, w, Table(pid, i));
    hide SysInv, Frames.Inv, Owned, RoleOk, InUse, GoodPde, DoSetPde, EmptyTable;
    SysBooks(s);
    Relabel(s, s1, f, Table(pid, i), role);
    RolesOnly(s1, s1.(roles := s.roles[f := role]), f, role);
  }

  /** A held zeroed frame becomes the missing table i. */
  lemma LinkTable(s: Sys, pid: int, i: int, f: int, w: int)
    requires SysInv(s) && pid in s.dirs && FIRST <= i < LAST && !Present(PdeOf(s, pid, i))
    requires f in s.roles && s.roles[f] == Held && f in s.phys.mem && s.phys.mem[f] == Zero()
    requires 0 <= w && Present(w) && FrameOf(w) == f
    ensures HasWord(s.phys, s.dirs[pid], i)
    ensures var s' := DoSetPde(s, pid, i, w).(roles := s.roles[f := Table(pid, i)]);
            && SysInv(s') && SamePages(s, s') && PdeOf(s', pid, i) == w && OtherDirs(s, s', pid)
            && (forall j :: j != i ==> PdeOf(s', pid, j) == PdeOf(s, pid, j))
  {
    DirFrame(s, pid);
    var s1 := DoSetPde(s, pid, i, w);
    SetPdeWords(s, pid, i, w, pid, 0);
    forall vpn {:trigger PteOf(s1, pid, vpn)} | vpn / WORDS == i
      ensures !Present(PteOf(s1, pid, vpn))
    {
      SetWordReads(s.phys, s.dirs[pid], i, w, f, vpn % WORDS);
    }
    SetPdeRelabel(s, pid, i, w, f, Table(pid, i));
    SetPdePages(s, pid, i, w);
    SetPdeOthers(s, pid, i, w);
    RolesInvisible(s1, s1.(roles := s.roles[f := Table(pid, i)]));
  }

  /** A table with nothing mapped is unlinked and held. */
  lemma UnlinkTable(s: Sys, pid: int, i: int)
    requires SysInv(s) && pid in s.dirs && FIRST <= i < LAST && Present(PdeOf(s, pid, i)) && EmptyTable(s, pid, i)
    ensures HasWord(s.phys, s.dirs[pid], i)
    ensures var f := FrameOf(PdeOf(s, pid, i));
            var s' := DoSetPde(s, pid, i, 0).(roles := s.roles[f := Held]);
            && f in s.roles && s.roles[f] == Table(pid, i)
            && SysInv(s') && SamePages(s, s') && PdeOf(s', pid, i) == 0 && OtherDirs(s, s', pid)
            && (forall j :: j != i ==> PdeOf(s', pid, j) == PdeOf(s, pid, j))
  {
    DirFrame(s, pid);
    assert Owned(s, Table(pid, i));
    var f, s1 := FrameOf(PdeOf(s, pid, i)), DoSetPde(s, pid, i, 0);
    SetPdeWords(s, pid, i, 0, pid, 0);
    forall vpn {:trigger PteOf(s1, pid, vpn)} | vpn / WORDS == i
      ensures !Present(PteOf(s1, pid, vpn))
    {
    }
    SetPdeRelabel(s, pid, i, 0, f, Held);
    SetPdePages(s, pid, i, 0);
    SetPdeOthers(s, pid, i, 0);
    RolesInvisible(s1, s1.(roles := s.roles[f := Held]));
  }
}
