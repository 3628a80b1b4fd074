/** Physical memory changed in place: the loops of kernel/physmem.cc, kernel/vmm.cc, kernel/vme.cc and
    kernel/sys.cc, each tied to the function the theorems speak of. */
module VmmClass {
  import opened Basics
  import opened Frames
  import opened Ownership
  import opened OwnershipSteps
  import opened VmOps
  import opened VmFork
  import T = Paging

  class Memory {
    var mem: map<int, seq<int>>
    var first: int
    var avail: int
    var limit: int

    ghost function P(): Phys
      reads this
    {
      Phys(mem, first, avail, limit)
    }

    method AllocFrame() returns (r: Maybe<int>)
      requires CanAlloc(P())
      modifies this
      ensures r.Panic? <==> Alloc(old(P())).Panic?
      ensures r.Done? ==> Alloc(old(P())) == Done((P(), r.value))
    {
      var p: int;
      if first != 0 {
        p := first;
        first := mem[p / PAGE][0];
      } else {
        if avail == limit { return Panic; }
        p := avail;
        avail := avail + PAGE;
      }
      mem := mem[p / PAGE := Zero()];
      return Done(p / PAGE);
    }

    method DeallocFrame(f: int)
      requires f in mem && |mem[f]| == WORDS
      modifies this
      ensures P() == Dealloc(old(P()), f)
    {
      mem := mem[f := mem[f][0 := first]];
      first := PAGE * f;
    }

    method SetWord(f: int, i: int, w: int)
      requires T.HasWord(P(), f, i)
      modifies this
      ensures P() == T.SetWord(old(P()), f, i, w)
    {
      mem := mem[f := mem[f][i := w]];
    }

    method CheckVPN(pd: int, vpn: int) returns (mapped: bool)
      requires T.DirOk(P(), pd, vpn)
      ensures mapped <==> T.Mapped(mem, pd, vpn)
    {
      var e := mem[pd][vpn / WORDS];
      if !T.Present(e) { return false; }
      return T.Present(mem[T.FrameOf(e)][vpn % WORDS]);
    }

    method AddMapping(pd: int, vpn: int, ppn: nat, global: bool, write: bool, user: bool) returns (ok: bool)
      requires T.DirOk(P(), pd, vpn)
      modifies this
      ensures ok <==> T.AddMapping(old(P()), pd, vpn, ppn, global, write, user).Done?
      ensures ok ==> T.AddMapping(old(P()), pd, vpn, ppn, global, write, user) == Done(P())
    {
      var e := mem[pd][vpn / WORDS];
      var t: int;
      if T.Present(e) {
        t := T.FrameOf(e);
      } else {
        var r := AllocFrame();
        if r.Panic? { return false; }
        t := r.value;
        SetWord(pd, vpn / WORDS, T.TableWord(e, t, global, write, user));
      }
      SetWord(t, vpn % WORDS, T.LeafWord(ppn, global, write, user));
      return true;
    }

    method RemoveMapping(pd: int, vpn: int)
      requires T.DirOk(P(), pd, vpn) && T.LeafOk(P(), pd, vpn)
      modifies this
      ensures P() == T.RemoveMapping(old(P()), pd, vpn)
    {
      var e := mem[pd][vpn / WORDS];
      if !T.Present(e) { return; }
      var t := T.FrameOf(e);
      if T.Present(mem[t][vpn % WORDS]) {
        DeallocFrame(T.FrameOf(mem[t][vpn % WORDS]));
      }
      SetWord(t, vpn % WORDS, 0);
    }

    /** The loop of ~VMEEntry. */
    method DropEntry(pd: int, start: nat, pages: nat, ghost s: Sys, ghost pid: int) returns (ghost s': Sys)
      requires SysInv(s) && s.phys == P() && pid in s.dirs && s.dirs[pid] == pd
      requires start % PAGE == 0 && InRange(start / PAGE, pages)
      modifies this
      ensures s' == UnmapRange(s, pid, start / PAGE, pages) && P() == s'.phys
    {
      hide SysInv, PageOf, PdeOf, PteOf, Unmap, UnmapRange;
      s' := s;
      var i := 0;
      while i < pages
        invariant i <= pages
        invariant SysInv(s') && s'.phys == P() && pid in s'.dirs && s'.dirs[pid] == pd
        invariant UnmapRange(s', pid, start / PAGE + i, pages - i) == UnmapRange(s, pid, start / PAGE, pages)
      {
        ghost var vpn := start / PAGE + i;
        assert (start + i * PAGE) / PAGE == vpn;
        UnmapIsRemoveMapping(s', pid, vpn);
        UnmapStep(s', pid, vpn);
        UnmapRangeNext(s', pid, vpn, pages - i);
        RemoveMapping(pd, (start + i * PAGE) / PAGE);
        s' := Unmap(s', pid, vpn);
        i := i + 1;
      }
      UnmapRangeEnd(s', pid, start / PAGE + i);
    }

    /** remove_PT_mapping. */
    method RemoveTable(pd: int, i: int, ghost s: Sys, ghost pid: int) returns (ghost s': Sys)
      requires SysInv(s) && s.phys == P() && pid in s.dirs && s.dirs[pid] == pd && FIRST <= i < LAST
      modifies this
      ensures s' == DropTable(s, pid, i) && P() == s'.phys
    {
      DirFrame(s, pid);
      if T.Present(mem[pd][i]) {
        ghost var f := T.FrameOf(PdeOf(s, pid, i));
        assert Owned(s, Table(pid, i)) && InUse(s, f);
        DeallocFrame(T.FrameOf(mem[pd][i]));
        SetWord(pd, i, 0);
      }
      s' := DropTable(s, pid, i);
    }

    /** execl's loop over the private part of the directory, after the entries are dropped. */
    method ClearTables(pd: int, ghost s: Sys, ghost pid: int) returns (ghost s': Sys)
      requires SysInv(s) && s.phys == P() && pid in s.dirs && s.dirs[pid] == pd && NothingMapped(s, pid)
      modifies this
      ensures s' == DropTables(s, pid, FIRST) && P() == s'.phys
    {
      s' := s;
      var i := FIRST;
      while i < LAST
        invariant FIRST <= i <= LAST
        invariant SysInv(s') && s'.phys == P() && pid in s'.dirs && s'.dirs[pid] == pd && NothingMapped(s', pid)
        invariant DropTables(s', pid, i) == DropTables(s, pid, FIRST)
      {
        EmptyWhenUnmapped(s', pid, i);
        DropTableStep(s', pid, i);
        NothingStays(s', DropTable(s', pid, i), pid);
        s' := RemoveTable(pd, i, s', pid);
        i := i + 1;
      }
    }

    /** new_page_directory. */
    method NewPageDirectory(global: int, ghost s: Sys, ghost pid: int) returns (r: Maybe<int>, ghost s': Sys)
      requires SysInv(s) && s.phys == P() && s.global == global && pid !in s.dirs && CanAlloc(s.phys) && global in mem
      modifies this
      ensures r.Panic? <==> NewDirectory(s, pid).Panic?
      ensures r.Done? ==> NewDirectory(s, pid) == Done(s') && P() == s'.phys && s'.dirs == s.dirs[pid := r.value]
    {
      NewDirectoryStep(s, pid);
      AllocStep(s);
      assert InUse(s, s.global);
      s' := s;
      r := AllocFrame();
      if r.Done? {
        mem := mem[r.value := mem[global]];
        s' := NewDirectory(s, pid).value;
      }
    }

    /** The body of the inner loop of copy_page_directory. */
    method CopyPageFrame(pt: int, newPt: int, y: int, ghost s: Sys, ghost par: int, ghost ch: int, ghost vpn: int)
      returns (ok: bool, ghost s': Sys)
      requires CanCopy(s, par, ch, vpn) && s.phys == P() && y == vpn % WORDS && SysInv(s)
      requires HasTable(s, par, vpn) && HasTable(s, ch, vpn) && TableOf(s, par, vpn) == pt && TableOf(s, ch, vpn) == newPt
      requires newPt != pt
      modifies this
      ensures ok <==> CopyPage(s, par, ch, vpn).Done?
      ensures ok ==> CopyPage(s, par, ch, vpn) == Done(s') && P() == s'.phys
    {
      hide SysInv, Frames.Inv;
      TableFrame(s, par, vpn);
      TableFrame(s, ch, vpn);
      s' := s;
      var e := mem[pt][y];
      if T.Present(e) {
        LeafIs(s, par, vpn);
        AllocStep(s);
        var r := AllocFrame();
        if r.Panic? { return false, s; }
        SetWord(newPt, y, PAGE * r.value + T.Flags(e));
        mem := mem[r.value := mem[T.FrameOf(e)]];
      }
      s' := CopyPage(s, par, ch, vpn).value;
      ok := true;
    }

    /** The inner loop: all the pages of table i. */
    method CopyTablePages(pt: int, newPt: int, i: int, ghost s: Sys, ghost par: int, ghost ch: int) returns (ok: bool, ghost s': Sys)
      requires CopySource(s, par, ch, i * WORDS, WORDS) && s.phys == P() && FIRST <= i < LAST
      requires TableIs(s, par, i, pt) && TableIs(s, ch, i, newPt) && pt != newPt
      modifies this
      ensures ok <==> CopyRange(s, par, ch, i * WORDS, WORDS).Done?
      ensures ok ==> CopyRange(s, par, ch, i * WORDS, WORDS) == Done(s') && P() == s'.phys
    {
      hide SysInv, PdeOf, PteOf, PageOf, CanCopy, CopyPage, CopyRange, CopySource, HasTable, TableIs, TableOf;
      s' := s;
      var y := 0;
      while y < WORDS
        invariant 0 <= y <= WORDS
        invariant s'.phys == P() && CopySource(s', par, ch, i * WORDS + y, WORDS - y)
        invariant TableIs(s', par, i, pt) && TableIs(s', ch, i, newPt)
        invariant CopyRange(s', par, ch, i * WORDS + y, WORDS - y) == CopyRange(s, par, ch, i * WORDS, WORDS)
      {
        ghost var vpn, n, before := i * WORDS + y, WORDS - y, s';
        CopyNext(before, par, ch, i, y, pt, newPt);
        CopyRangeNext(before, par, ch, vpn, n);
        ok, s' := CopyPageFrame(pt, newPt, y, before, par, ch, vpn);
        if !ok { return; }
        TableStays(before, s', par, i, pt);
        TableStays(before, s', ch, i, newPt);
        y := y + 1;
      }
      CopyRangeEnd(s', par, ch, i * WORDS + y);
      ok := true;
    }

    /** copy_page_directory. */
    method CopyPageDirectory(pd: int, newPd: int, ghost s: Sys, ghost par: int, ghost ch: int) returns (ok: bool, ghost s': Sys)
      requires SysInv(s) && s.phys == P() && par in s.dirs && par != ch && BareFrom(s, ch, FIRST)
      requires s.dirs[par] == pd && s.dirs[ch] == newPd
      modifies this
      ensures ok <==> CopyTables(s, par, ch, FIRST).Done?
      ensures ok ==> CopyTables(s, par, ch, FIRST) == Done(s') && P() == s'.phys
    {
      hide SysInv, PdeOf, PteOf, PageOf, CopyTable, CopyRange, CopySource, CopyTables, TableIs, BareFrom;
      s' := s;
      var i := FIRST;
      while i < LAST
        invariant FIRST <= i <= LAST
        invariant SysInv(s') && s'.phys == P() && s'.dirs == s.dirs && BareFrom(s', ch, i)
        invariant CopyTables(s', par, ch, i) == CopyTables(s, par, ch, FIRST)
      {
        ghost var before := s';
        DirFrame(before, par);
        DirWord(before, par, i);
        CopyTablesNext(before, par, ch, i);
        if T.Present(mem[pd][i]) {
          var pt := T.FrameOf(mem[pd][i]);
          var r, s1 := CopyTableFrame(pd, newPd, i, before, par, ch);
          if r.Panic? { return false, before; }
          TableHere(before, par, i);
          NewTableIs(before, s1, par, ch, i, pt, r.value);
          ok, s' := CopyTablePages(pt, r.value, i, s1, par, ch);
          if !ok { return; }
        }
        i := i + 1;
      }
      CopyTablesEnd(s', par, ch);
      ok := true;
    }

    /** The new table of the outer loop. */
    method CopyTableFrame(pd: int, newPd: int, i: int, ghost s: Sys, ghost par: int, ghost ch: int) returns (r: Maybe<int>, ghost s': Sys)
      requires SysInv(s) && s.phys == P() && par in s.dirs && par != ch && FIRST <= i < LAST && BareFrom(s, ch, i)
      requires s.dirs[par] == pd && s.dirs[ch] == newPd && T.Present(PdeOf(s, par, i))
      modifies this
      ensures r.Panic? <==> CopyTable(s, par, ch, i).Panic?
      ensures r.Done? ==> CopyTable(s, par, ch, i) == Done(s') && P() == s'.phys && T.FrameOf(PdeOf(s', ch, i)) == r.value
    {
      DirFrame(s, par);
      DirFrame(s, ch);
      AllocStep(s);
      s' := s;
      r := AllocFrame();
      if r.Done? {
        assert InUse(s, pd) && InUse(s, newPd);
        assert r.value !in s.roles;
        assert PAGE * r.value + T.Flags(mem[pd][i]) == PAGE * r.value + T.Flags(PdeOf(s, par, i));
        SetWord(newPd, i, PAGE * r.value + T.Flags(mem[pd][i]));
        s' := CopyTable(s, par, ch, i).value;
      }
    }
  }

  lemma UnmapRangeNext(s: Sys, pid: int, vpn: int, n: nat)
    requires SysInv(s) && pid in s.dirs && n > 0 && InRange(vpn, n)
    ensures CanUnmap(s, pid, vpn) && SysInv(Unmap(s, pid, vpn)) && Unmap(s, pid, vpn).dirs == s.dirs
    ensures UnmapRange(s, pid, vpn, n) == UnmapRange(Unmap(s, pid, vpn), pid, vpn + 1, n - 1)
  {
    hide SysInv, PageOf, Unmap;
    UnmapStep(s, pid, vpn);
  }

  lemma UnmapRangeEnd(s: Sys, pid: int, vpn: int)
    requires SysInv(s) && pid in s.dirs && InRange(vpn, 0)
    ensures UnmapRange(s, pid, vpn, 0) == s
  {
  }

  /** Table i of the process is in frame t. */
  ghost predicate TableIs(s: Sys, pid: int, i: int, t: int) {
    pid in s.dirs && T.Present(PdeOf(s, pid, i)) && T.FrameOf(PdeOf(s, pid, i)) == t
  }

  lemma TableHere(s: Sys, pid: int, i: int)
    requires pid in s.dirs && T.Present(PdeOf(s, pid, i))
    ensures TableIs(s, pid, i, T.FrameOf(PdeOf(s, pid, i)))
  {
  }

  lemma TableStays(s: Sys, s': Sys, pid: int, i: int, t: int)
    requires SameDirs(s, s') && TableIs(s, pid, i, t)
    ensures TableIs(s', pid, i, t)
  {
    assert PdeOf(s', pid, i) == PdeOf(s, pid, i);
  }

  lemma CopyNext(s: Sys, par: int, ch: int, i: int, y: int, pt: int, newPt: int)
    requires FIRST <= i < LAST && 0 <= y < WORDS && CopySource(s, par, ch, i * WORDS + y, WORDS - y)
    requires TableIs(s, par, i, pt) && TableIs(s, ch, i, newPt)
    ensures var vpn := i * WORDS + y;
            && vpn / WORDS == i && vpn % WORDS == y && Private(vpn)
            && CanCopy(s, par, ch, vpn) && HasTable(s, par, vpn) && HasTable(s, ch, vpn)
            && TableOf(s, par, vpn) == pt && TableOf(s, ch, vpn) == newPt && PageOf(s, ch, vpn) == Absent
            && SysInv(s) && (CopyPage(s, par, ch, vpn).Done? ==>
                  SysInv(CopyPage(s, par, ch, vpn).value) && SameBut(s, CopyPage(s, par, ch, vpn).value, ch, vpn)
                  && SameDirs(s, CopyPage(s, par, ch, vpn).value))
  {
    hide SysInv, PdeOf, PteOf, PageOf, CanCopy, CopyPage;
    var vpn := i * WORDS + y;
    assert vpn / WORDS == i && vpn % WORDS == y;
    CopyNow(s, par, ch, vpn, WORDS - y);
    CopyPageStep(s, par, ch, vpn);
  }

  /** One turn of the inner loop. */
  lemma CopyRangeNext(s: Sys, par: int, ch: int, vpn: int, n: nat)
    requires n > 0 && CopySource(s, par, ch, vpn, n)
    ensures CanCopy(s, par, ch, vpn)
    ensures CopyPage(s, par, ch, vpn).Panic? ==> CopyRange(s, par, ch, vpn, n).Panic?
    ensures CopyPage(s, par, ch, vpn).Done? ==>
              var s1 := CopyPage(s, par, ch, vpn).value;
              CopySource(s1, par, ch, vpn + 1, n - 1) && CopyRange(s, par, ch, vpn, n) == CopyRange(s1, par, ch, vpn + 1, n - 1)
  {
    hide SysInv, PdeOf, PteOf, PageOf, CanCopy, CopyPage;
    CopyNow(s, par, ch, vpn, n);
    CopyPageStep(s, par, ch, vpn);
    if CopyPage(s, par, ch, vpn).Done? {
      SourceStays(s, CopyPage(s, par, ch, vpn).value, par, ch, vpn, n);
    }
  }

  lemma CopyRangeEnd(s: Sys, par: int, ch: int, vpn: int)
    requires CopySource(s, par, ch, vpn, 0)
    ensures CopyRange(s, par, ch, vpn, 0) == Done(s)
  {
  }

  /** One turn of the outer loop. */
  lemma CopyTablesNext(s: Sys, par: int, ch: int, i: int)
    requires SysInv(s) && par in s.dirs && par != ch && FIRST <= i < LAST && BareFrom(s, ch, i)
    ensures !T.Present(PdeOf(s, par, i)) ==> BareFrom(s, ch, i + 1) && CopyTables(s, par, ch, i) == CopyTables(s, par, ch, i + 1)
    ensures T.Present(PdeOf(s, par, i)) ==>
              && (CopyTable(s, par, ch, i).Panic? ==> CopyTables(s, par, ch, i).Panic?)
              && (CopyTable(s, par, ch, i).Done? ==>
                    var s1 := CopyTable(s, par, ch, i).value;
                    && SysInv(s1) && T.Present(PdeOf(s1, ch, i)) && CopySource(s1, par, ch, i * WORDS, WORDS)
                    && (CopyRange(s1, par, ch, i * WORDS, WORDS).Panic? ==> CopyTables(s, par, ch, i).Panic?)
                    && (CopyRange(s1, par, ch, i * WORDS, WORDS).Done? ==>
                          var s2 := CopyRange(s1, par, ch, i * WORDS, WORDS).value;
                          && SysInv(s2) && s2.dirs == s.dirs && BareFrom(s2, ch, i + 1)
                          && CopyTables(s, par, ch, i) == CopyTables(s2, par, ch, i + 1)))
  {
    hide SysInv, PdeOf, PteOf, PageOf, CopyTable, CopyRange, CopySource;
    if T.Present(PdeOf(s, par, i)) {
      CopyTableStep(s, par, ch, i);
      if CopyTable(s, par, ch, i).Done? {
        var s1 := CopyTable(s, par, ch, i).value;
        CopyRangeStep(s1, par, ch, i * WORDS, WORDS);
        if CopyRange(s1, par, ch, i * WORDS, WORDS).Done? {
          BareStays(s1, CopyRange(s1, par, ch, i * WORDS, WORDS).value, ch, i + 1);
        }
      }
    }
  }

  lemma CopyTablesEnd(s: Sys, par: int, ch: int)
    requires SysInv(s) && par in s.dirs && par != ch && BareFrom(s, ch, LAST)
    ensures CopyTables(s, par, ch, LAST) == Done(s)
  {
  }

  lemma DirWord(s: Sys, pid: int, i: int)
    requires pid in s.dirs && s.dirs[pid] in s.phys.mem && 0 <= i < |s.phys.mem[s.dirs[pid]]|
    ensures PdeOf(s, pid, i) == s.phys.mem[s.dirs[pid]][i]
  {
  }

  lemma NewTableIs(s: Sys, s1: Sys, par: int, ch: int, i: int, pt: int, t: int)
    requires SysInv(s) && par in s.dirs && par != ch && FIRST <= i < LAST && BareFrom(s, ch, i) && TableIs(s, par, i, pt)
    requires CopyTable(s, par, ch, i) == Done(s1) && SysInv(s1) && T.Present(PdeOf(s1, ch, i)) && T.FrameOf(PdeOf(s1, ch, i)) == t
    ensures TableIs(s1, par, i, pt) && TableIs(s1, ch, i, t) && pt != t
  {
    hide SysInv, Frames.Inv;
    AllocStep(s);
    var (s0, f) := DoAlloc(s).value;
    DirsStay(s, s0, f);
    DirFrame(s0, ch);
    SetPdeWords(s0, ch, i, PAGE * f + T.Flags(PdeOf(s, par, i)), par, 0);
    assert PdeOf(s0, par, i) == PdeOf(s, par, i);
    ExactlyOneOwner(s1, Table(par, i), Table(ch, i));
  }
}
