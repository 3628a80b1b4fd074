/** What every sequence of add_entry and remove_entry keeps, and how they undo each other. */
module VmeProofs {
  import opened Basics
  import opened VmeModel

  lemma SplitPages(start: nat, n: nat, pages: nat)
    requires start % PAGE == 0 && n <= pages
    ensures Pages(start, pages) == Pages(start, n) + Pages(start + PAGE * n, pages - n)
    ensures Pages(start, n) !! Pages(start + PAGE * n, pages - n)
  {
    assert (start + PAGE * n) / PAGE == start / PAGE + n;
    forall p
      ensures IsPage(start, pages, p) <==> IsPage(start, n, p) || IsPage(start + PAGE * n, pages - n, p)
      ensures !(IsPage(start, n, p) && IsPage(start + PAGE * n, pages - n, p))
    {
    }
  }

  /** Cutting n pages off range k removes exactly those pages from the free set. */
  lemma {:induction false} CutOk(fs: seq<Range>, k: nat, n: nat, top: nat)
    requires FreeOk(fs) && Loose(fs, top) && top < U32 && k < |fs| && n <= fs[k].pages
    ensures FreeOk(Cut(fs, k, n))
    ensures Cut(fs, k, n) != [] ==> Cut(fs, k, n)[0].start >= fs[0].start
    ensures FreePages(Cut(fs, k, n)) !! Pages(fs[k].start, n)
    ensures FreePages(Cut(fs, k, n)) + Pages(fs[k].start, n) == FreePages(fs)
  {
    hide Pages, Wrap, Cut;
    var r := Cut(fs, k, n);
    if k == 0 {
      CutFirst(fs, n, top);
    } else {
      CutOk(fs[1..], k - 1, n, top);
      assert fs[1..][k - 1] == fs[k];
      CutLater(fs, k, n);
      FirstApart(fs, k);
      FewerPages(fs[k].start, n, fs[k].pages);
    }
  }

  lemma CutLater(fs: seq<Range>, k: nat, n: nat)
    requires 0 < k < |fs| && n <= fs[k].pages
    ensures fs[1..][k - 1] == fs[k] && Cut(fs, k, n) == [fs[0]] + Cut(fs[1..], k - 1, n)
    ensures Cut(fs, k, n)[1..] == Cut(fs[1..], k - 1, n)
  {
  }

  lemma FewerPages(start: nat, n: nat, pages: nat)
    requires n <= pages
    ensures Pages(start, n) <= Pages(start, pages)
  {
    assert forall p :: IsPage(start, n, p) ==> IsPage(start, pages, p);
  }

  lemma CutFirst(fs: seq<Range>, n: nat, top: nat)
    requires FreeOk(fs) && Loose(fs, top) && top < U32 && fs != [] && n <= fs[0].pages
    ensures FreeOk(Cut(fs, 0, n))
    ensures Cut(fs, 0, n) != [] ==> Cut(fs, 0, n)[0].start >= fs[0].start
    ensures FreePages(Cut(fs, 0, n)) !! Pages(fs[0].start, n)
    ensures FreePages(Cut(fs, 0, n)) + Pages(fs[0].start, n) == FreePages(fs)
  {
    var r := Cut(fs, 0, n);
    FirstApart(fs, 0);
    if fs[0].pages == n {
      assert r == fs[1..];
    } else {
      SplitPages(fs[0].start, n, fs[0].pages);
      assert r[1..] == fs[1..];
    }
  }

  lemma {:induction false} FreePagesAt(fs: seq<Range>, k: nat)
    requires k < |fs|
    ensures Pages(fs[k].start, fs[k].pages) <= FreePages(fs)
  {
    if k > 0 {
      FreePagesAt(fs[1..], k - 1);
      assert fs[1..][k - 1] == fs[k];
    }
  }

  /** No page of the first range is in a later one. */
  lemma FirstApart(fs: seq<Range>, k: nat)
    requires FreeOk(fs) && k < |fs|
    ensures Pages(fs[0].start, fs[0].pages) !! FreePages(fs[1..])
    ensures k > 0 ==> Pages(fs[0].start, fs[0].pages) !! Pages(fs[k].start, fs[k].pages)
  {
    forall p | p in FreePages(fs[1..])
      ensures p !in Pages(fs[0].start, fs[0].pages)
    {
      FreeAbove(fs[1..], p);
    }
    if k > 0 {
      FreePagesAt(fs[1..], k - 1);
      assert fs[1..][k - 1] == fs[k];
    }
  }

  lemma FreeLoose(v: Vme)
    requires Inv(v)
    ensures Loose(v.free, v.avail)
    ensures v.free != [] ==> v.base <= v.free[0].start
  {
    FreeIsLoose(v.free, v.base, v.avail);
  }

  // ---------- add_entry ----------

  /** The 32-bit check in add_entry is sound: it does not take the bump path with a sum that wraps. */
  predicate NoOverrun(v: Vme, size: nat) {
    FirstFit(v.free, Required(size)) < |v.free| || Required(size) == 0 || v.avail + size < U32
  }

  lemma RequiredExact(size: nat)
    requires size < U32
    ensures Required(size) > 0 ==> PAGE * (Required(size) - 1) < size <= PAGE * Required(size) < U32
    ensures Required(size) == 0 ==> size == 0 || U32 - PAGE < size
  {
  }

  /** Installing entry e and free list fs, with the used range ending at `top`. */
  lemma InstallOk(v: Vme, e: Entry, fs: seq<Range>, top: nat)
    requires Inv(v) && GoodEntry(e) && FreeOk(fs) && v.avail <= top <= v.limit && top % PAGE == 0
    requires Pages(e.start, e.pages) !! EntryPages(v.entries) && Pages(e.start, e.pages) !! FreePages(fs)
    requires FreePages(fs) !! EntryPages(v.entries)
    requires EntryPages(v.entries) + (FreePages(fs) + Pages(e.start, e.pages)) == Pages(v.base, (top - v.base) / PAGE)
    ensures Inv(v.(avail := top, entries := InsertEntry(v.entries, e), free := fs))
    ensures EntryPages(InsertEntry(v.entries, e)) == EntryPages(v.entries) + Pages(e.start, e.pages)
    ensures forall x :: x in InsertEntry(v.entries, e) <==> x in v.entries || x == e
  {
    hide Pages, EntryPages, FreePages, EntriesOk, FreeOk;
    InsertEntryOk(v.entries, e);
    InsertEntryPages(v.entries, e);
  }

  /** When the request is cut from a free range. */
  lemma AddFromFree(v: Vme, size: nat, file: File, offset: nat, user: bool)
    requires Inv(v) && size < U32 && FirstFit(v.free, Required(size)) < |v.free|
    ensures Inv(AddEntry(v, size, file, offset, user).0)
    ensures Added(v, AddEntry(v, size, file, offset, user).0, AddEntry(v, size, file, offset, user).1, size, file, offset, user)
  {
    hide Pages, EntryPages, FreePages, EntriesOk, FreeOk, Cut, InsertEntry, Required, Loose;
    var n := Required(size);
    var k := FirstFit(v.free, n);
    RequiredExact(size);
    FreeLoose(v);
    FreeOkFrom(v.free, k);
    CutOk(v.free, k, n, v.avail);
    var e := Entry(v.free[k].start, n, size, file, offset, user);
    InstallOk(v, e, Cut(v.free, k, n), v.avail);
    TopApart(v);
  }

  /** Pages from avail on are not in use yet. */
  lemma TopApart(v: Vme)
    requires Inv(v)
    ensures (EntryPages(v.entries) + FreePages(v.free)) !! Pages(v.avail, (v.limit - v.avail) / PAGE)
  {
    SplitPages(v.base, (v.avail - v.base) / PAGE, (v.limit - v.base) / PAGE);
  }

  /** When the request extends the used range. */
  lemma AddFromTop(v: Vme, size: nat, file: File, offset: nat, user: bool)
    requires Inv(v) && size < U32 && FirstFit(v.free, Required(size)) == |v.free| && NoOverrun(v, size)
    requires Wrap(v.avail + size) <= v.limit
    ensures Inv(AddEntry(v, size, file, offset, user).0)
    ensures Added(v, AddEntry(v, size, file, offset, user).0, AddEntry(v, size, file, offset, user).1, size, file, offset, user)
  {
    hide Inv, Pages, EntryPages, FreePages, InsertEntry, Required, Wrap, NoOverrun, AddEntry, FirstFit;
    var n := Required(size);
    RequiredExact(size);
    TopRoom(v, size);
    TopIs(v, size, file, offset, user);
    TopInstall(v, n, Entry(v.avail, n, size, file, offset, user));
  }

  /** The state after the bump path. */
  lemma TopIs(v: Vme, size: nat, file: File, offset: nat, user: bool)
    requires Inv(v) && FirstFit(v.free, Required(size)) == |v.free| && Wrap(v.avail + size) <= v.limit
    requires Wrap(v.avail + Wrap(PAGE * Required(size))) == v.avail + PAGE * Required(size)
    ensures var n := Required(size);
            AddEntry(v, size, file, offset, user) ==
            (v.(avail := v.avail + PAGE * n, entries := InsertEntry(v.entries, Entry(v.avail, n, size, file, offset, user))), v.avail)
  {
    hide Pages, EntryPages, FreePages, EntriesOk, FreeOk, InsertEntry, Required, Wrap;
  }

  lemma TopInstall(v: Vme, n: nat, e: Entry)
    requires Inv(v) && v.avail + PAGE * n <= v.limit && e.start == v.avail && e.pages == n == Required(e.size)
    requires n > 0 ==> PAGE * (n - 1) < e.size <= PAGE * n
    ensures var v' := v.(avail := v.avail + PAGE * n, entries := InsertEntry(v.entries, e));
            Inv(v') && Added(v, v', v.avail, e.size, e.file, e.offset, e.user)
  {
    hide Pages, EntryPages, FreePages, EntriesOk, FreeOk, InsertEntry, Required, Available;
    TopFacts(v, n);
    InstallOk(v, e, v.free, v.avail + PAGE * n);
    TopAvailable(v, n, InsertEntry(v.entries, e));
  }

  lemma TopFacts(v: Vme, n: nat)
    requires Inv(v) && v.avail + PAGE * n <= v.limit
    ensures Pages(v.avail, n) !! EntryPages(v.entries) && Pages(v.avail, n) !! FreePages(v.free)
    ensures EntryPages(v.entries) + (FreePages(v.free) + Pages(v.avail, n)) == Pages(v.base, (v.avail + PAGE * n - v.base) / PAGE)
  {
    hide Pages, EntryPages, FreePages, EntriesOk, FreeOk;
    TopApart(v);
    TopPages(v, n);
  }

  /** The pages taken from the top are exactly those no longer available. */
  lemma TopAvailable(v: Vme, n: nat, es: seq<Entry>)
    requires Inv(v) && v.avail + PAGE * n <= v.limit
    ensures Pages(v.avail, n) <= Available(v)
    ensures Available(v.(avail := v.avail + PAGE * n, entries := es)) == Available(v) - Pages(v.avail, n)
  {
    hide Pages, EntryPages, FreePages, EntriesOk, FreeOk;
    TopApart(v);
    TopPages(v, n);
  }

  lemma TopPages(v: Vme, n: nat)
    requires Inv(v) && v.avail + PAGE * n <= v.limit
    ensures Pages(v.base, (v.avail + PAGE * n - v.base) / PAGE) == Pages(v.base, (v.avail - v.base) / PAGE) + Pages(v.avail, n)
    ensures Pages(v.avail, (v.limit - v.avail) / PAGE) == Pages(v.avail, n) + Pages(v.avail + PAGE * n, (v.limit - (v.avail + PAGE * n)) / PAGE)
    ensures Pages(v.avail, n) !! Pages(v.avail + PAGE * n, (v.limit - (v.avail + PAGE * n)) / PAGE)
  {
    SplitPages(v.base, (v.avail - v.base) / PAGE, (v.avail - v.base) / PAGE + n);
    SplitPages(v.avail, n, (v.limit - v.avail) / PAGE);
  }

  lemma TopRoom(v: Vme, size: nat)
    requires Inv(v) && size < U32 && NoOverrun(v, size) && FirstFit(v.free, Required(size)) == |v.free|
    requires Wrap(v.avail + size) <= v.limit
    ensures Wrap(v.avail + Wrap(PAGE * Required(size))) == v.avail + PAGE * Required(size) <= v.limit
  {
    hide EntryPages, FreePages, EntriesOk, FreeOk, Pages, FirstFit, Required, Wrap;
    RequiredExact(size);
    var n := Required(size);
    if n > 0 {
      WrapSmall(v.avail + size);
      WholePages(v.avail, v.limit, size, n);
    }
    WrapSmall(PAGE * n);
    WrapSmall(v.avail + PAGE * n);
  }

  lemma WrapSmall(x: nat)
    requires x < U32
    ensures Wrap(x) == x
  {
  }

  /** Rounding a size up to whole pages does not cross an aligned limit. */
  lemma WholePages(avail: nat, limit: nat, size: nat, n: nat)
    requires avail % PAGE == 0 && limit % PAGE == 0 && avail + size <= limit && PAGE * (n - 1) < size
    ensures avail + PAGE * n <= limit
  {
    var a, b := avail / PAGE, limit / PAGE;
    assert avail == PAGE * a && limit == PAGE * b;
    assert PAGE * (a + n - 1) < PAGE * b;
  }

  /** What a successful add_entry does: one new entry at va on pages that were available, and nothing else. */
  ghost predicate Added(v: Vme, v': Vme, va: nat, size: nat, file: File, offset: nat, user: bool) {
    && v'.base == v.base && v'.limit == v.limit
    && va % PAGE == 0 && v.base <= va
    && (forall e :: e in v'.entries <==> e in v.entries || e == Entry(va, Required(size), size, file, offset, user))
    && EntryPages(v'.entries) == EntryPages(v.entries) + Pages(va, Required(size))
    && Pages(va, Required(size)) <= Available(v)
    && Available(v') == Available(v) - Pages(va, Required(size))
  }

  /** add_entry keeps the invariant exactly when its unchecked 32-bit sum does not wrap on the bump path. */
  lemma AddEntryKeepsIff(v: Vme, size: nat, file: File, offset: nat, user: bool)
    requires Inv(v) && size < U32
    ensures Inv(AddEntry(v, size, file, offset, user).0) <==> NoOverrun(v, size)
  {
    if FirstFit(v.free, Required(size)) < |v.free| {
      AddFromFree(v, size, file, offset, user);
    } else if NoOverrun(v, size) {
      if Wrap(v.avail + size) <= v.limit {
        AddFromTop(v, size, file, offset, user);
      }
    } else {
      AddOverruns(v, size, file, offset, user);
    }
  }

  lemma AddOverruns(v: Vme, size: nat, file: File, offset: nat, user: bool)
    requires Inv(v) && size < U32 && !NoOverrun(v, size)
    ensures !Inv(AddEntry(v, size, file, offset, user).0)
  {
    var v' := AddEntry(v, size, file, offset, user).0;
    var n := Required(size);
    RequiredExact(size);
    var e := Entry(v.avail, n, size, file, offset, user);
    InsertEntryPages(v.entries, e);
    assert v'.entries == InsertEntry(v.entries, e);
    assert v'.avail < v.avail;
    var p := v.avail / PAGE;
    assert IsPage(v.avail, n, p);
    assert p in EntryPages(v'.entries);
    assert v'.avail >= v'.base ==> !IsPage(v'.base, (v'.avail - v'.base) / PAGE, p);
  }

  /** A concrete request that breaks the allocator: half the address space on a fresh process. */
  lemma HalfOfMemoryOverruns()
    ensures var v := Vme(0x8000_0000, 0x8000_0000, 0xF000_0000, [], []);
            Inv(v) && !Inv(AddEntry(v, 0x8000_0000, NoFile, 0, true).0) && AddEntry(v, 0x8000_0000, NoFile, 0, true).0.avail == 0
  {
    var v := Vme(0x8000_0000, 0x8000_0000, 0xF000_0000, [], []);
    assert forall p :: !IsPage(v.base, 0, p);
    assert Inv(v);
    AddEntryKeepsIff(v, 0x8000_0000, NoFile, 0, true);
  }

  /** add_entry within the condition: refused only when neither a free range nor the top has room. */
  lemma AddEntryResult(v: Vme, size: nat, file: File, offset: nat, user: bool)
    requires Inv(v) && size < U32 && NoOverrun(v, size)
    ensures var (v', va) := AddEntry(v, size, file, offset, user);
            && Inv(v')
            && (va == 0 <==> (forall f :: f in v.free ==> f.pages < Required(size)) && v.avail + size > v.limit && Required(size) > 0)
            && (va == 0 ==> v' == v)
            && (va != 0 ==> Added(v, v', va, size, file, offset, user))
  {
    hide Pages, EntryPages, FreePages, EntriesOk, FreeOk, InsertEntry, Required, Cut, Added, Loose, FirstFit;
    var k := FirstFit(v.free, Required(size));
    NoFit(v.free, Required(size));
    RequiredExact(size);
    if k < |v.free| {
      FreeAboveBase(v, k);
      AddFromFree(v, size, file, offset, user);
    } else if Wrap(v.avail + size) <= v.limit {
      AddFromTop(v, size, file, offset, user);
    }
  }

  lemma FreeAboveBase(v: Vme, k: nat)
    requires Inv(v) && k < |v.free|
    ensures v.free[k].start >= v.base > 0
  {
    FreeLoose(v);
    FreeOkFrom(v.free, k);
  }

  lemma {:induction false} NoFit(fs: seq<Range>, n: nat)
    ensures FirstFit(fs, n) == |fs| <==> forall f :: f in fs ==> f.pages < n
  {
    if fs != [] {
      NoFit(fs[1..], n);
      assert fs == [fs[0]] + fs[1..];
    }
  }

  lemma {:induction false} FitIsFirst(fs: seq<Range>, n: nat, i: nat)
    requires i < FirstFit(fs, n)
    ensures fs[i].pages < n
  {
    if i > 0 {
      FitIsFirst(fs[1..], n, i - 1);
      assert fs[1..][i - 1] == fs[i];
    }
  }

  /** First fit: the address is where the first large enough range starts; without one it is the end of the used range,
      or none. */
  lemma AddressIs(v: Vme, size: nat, file: File, offset: nat, user: bool, k: nat)
    requires Inv(v) && size < U32 && k <= |v.free| && (forall i :: 0 <= i < k ==> v.free[i].pages < Required(size))
    requires k < |v.free| ==> v.free[k].pages >= Required(size)
    ensures AddEntry(v, size, file, offset, user).1 ==
            if k < |v.free| then v.free[k].start else if Wrap(v.avail + size) > v.limit then 0 else v.avail
  {
    hide Pages, EntryPages, FreePages, EntriesOk, FreeOk, InsertEntry, Required, Cut;
    var j := FirstFit(v.free, Required(size));
    NoFit(v.free, Required(size));
    if k < j { FitIsFirst(v.free, Required(size), k); }
    if k < |v.free| { FreeAboveBase(v, k); assert v.free[k] in v.free; }
  }

  // ---------- lookup ----------

  lemma {:induction false} EntryPagesAt(es: seq<Entry>, k: nat)
    requires EntriesOk(es) && k < |es|
    ensures Pages(es[k].start, es[k].pages) <= EntryPages(es) && GoodEntry(es[k])
  {
    if k > 0 {
      EntryPagesAt(es[1..], k - 1);
      assert es[1..][k - 1] == es[k];
    }
  }

  /** Inside a well-formed allocator no entry wraps: covering an address is owning its page. */
  lemma CoversExact(v: Vme, k: nat, va: nat)
    requires Inv(v) && k < |v.entries|
    ensures Covers(v.entries[k], va) <==> va / PAGE in Pages(v.entries[k].start, v.entries[k].pages)
    ensures v.entries[k].pages > 0 ==> v.base <= v.entries[k].start && v.entries[k].start + PAGE * v.entries[k].pages <= v.avail
  {
    var e := v.entries[k];
    EntryPagesAt(v.entries, k);
    if e.pages > 0 {
      RangeBelow(e.start, e.pages, v.base, v.avail);
      CoversAligned(e, va);
    } else {
      EmptyCovers(e, va);
    }
  }

  lemma CoversAligned(e: Entry, va: nat)
    requires e.start % PAGE == 0 && e.start + PAGE * e.pages < U32
    ensures Covers(e, va) <==> va / PAGE in Pages(e.start, e.pages)
  {
    assert va / PAGE in Pages(e.start, e.pages) <==> IsPage(e.start, e.pages, va / PAGE);
  }

  lemma EmptyCovers(e: Entry, va: nat)
    requires e.pages == 0
    ensures !Covers(e, va) && va / PAGE !in Pages(e.start, e.pages)
  {
    assert !IsPage(e.start, 0, va / PAGE);
    assert Wrap(e.start + Wrap(0)) <= e.start;
  }

  lemma {:induction false} FindFirst(es: seq<Entry>, va: nat)
    ensures Find(es, va) < |es| ==> Covers(es[Find(es, va)], va)
    ensures forall i :: 0 <= i < Find(es, va) ==> !Covers(es[i], va)
  {
    if es != [] && !Covers(es[0], va) {
      FindFirst(es[1..], va);
      forall i | 0 <= i < Find(es, va)
        ensures !Covers(es[i], va)
      {
        if i > 0 { assert es[1..][i - 1] == es[i]; }
      }
    }
  }

  lemma {:induction false} FindRemovableFirst(es: seq<Entry>, va: nat, user: bool)
    ensures FindRemovable(es, va, user) < |es| ==>
              Covers(es[FindRemovable(es, va, user)], va) && (!user || es[FindRemovable(es, va, user)].user)
    ensures forall i :: 0 <= i < FindRemovable(es, va, user) ==> !(Covers(es[i], va) && (!user || es[i].user))
  {
    if es != [] && !(Covers(es[0], va) && (!user || es[0].user)) {
      FindRemovableFirst(es[1..], va, user);
      forall i | 0 <= i < FindRemovable(es, va, user)
        ensures !(Covers(es[i], va) && (!user || es[i].user))
      {
        if i > 0 { assert es[1..][i - 1] == es[i]; }
      }
    }
  }

  /** No page is in two entries. */
  lemma {:induction false} OneEntryPerPage(es: seq<Entry>, i: nat, j: nat, p: int)
    requires EntriesOk(es) && i < j < |es|
    ensures !(p in Pages(es[i].start, es[i].pages) && p in Pages(es[j].start, es[j].pages))
  {
    if i == 0 {
      EntryPagesAt(es[1..], j - 1);
      assert es[1..][j - 1] == es[j];
    } else {
      OneEntryPerPage(es[1..], i - 1, j - 1, p);
      assert es[1..][i - 1] == es[i] && es[1..][j - 1] == es[j];
    }
  }

  /** get finds an entry exactly for the addresses in use, and it is the only one that covers the address. */
  lemma FindIsExact(v: Vme, va: nat)
    requires Inv(v)
    ensures Find(v.entries, va) < |v.entries| <==> va / PAGE in EntryPages(v.entries)
    ensures forall i :: 0 <= i < |v.entries| && Covers(v.entries[i], va) ==> i == Find(v.entries, va)
  {
    hide Covers, Pages;
    FindFirst(v.entries, va);
    var k := Find(v.entries, va);
    InEntryPages(v.entries, va / PAGE);
    forall i | 0 <= i < |v.entries|
      ensures Covers(v.entries[i], va) <==> va / PAGE in Pages(v.entries[i].start, v.entries[i].pages)
    {
      CoversExact(v, i, va);
    }
    forall i | 0 <= i < |v.entries| && Covers(v.entries[i], va)
      ensures i == k
    {
      if k < i { OneEntryPerPage(v.entries, k, i, va / PAGE); }
    }
    if k < |v.entries| { assert v.entries[k] in v.entries; }
  }

  // ---------- remove_entry ----------

  /** What remove_entry does when it finds entry k: its pages become available, all else stays. */
  lemma RemoveEntryResult(v: Vme, va: nat, user: bool)
    requires Inv(v)
    ensures Inv(RemoveEntry(v, va, user))
    ensures var k := FindRemovable(v.entries, va, user);
            k < |v.entries| ==>
              && v.entries[k].pages > 0
              && EntryPages(RemoveEntry(v, va, user).entries) == EntryPages(v.entries) - Pages(v.entries[k].start, v.entries[k].pages)
              && Available(RemoveEntry(v, va, user)) == Available(v) + Pages(v.entries[k].start, v.entries[k].pages)
  {
    hide Pages, EntryPages, FreePages, EntriesOk, FreeOk, InsertRange, Coalesce, Covers, Loose, Without, FindRemovable;
    var k := FindRemovable(v.entries, va, user);
    if k < |v.entries| {
      var e := v.entries[k];
      FindRemovableFirst(v.entries, va, user);
      CoversExact(v, k, va);
      if e.pages == 0 { EmptyCovers(e, va); }
      Returned(v, k);
    }
  }

  /** Taking entry k out and giving its pages to the free list. */
  lemma Returned(v: Vme, k: nat)
    requires Inv(v) && k < |v.entries| && v.entries[k].pages > 0
    requires v.entries[k].start + PAGE * v.entries[k].pages <= v.avail
    ensures var e := v.entries[k];
            var es, fs := Without(v.entries, k), Coalesce(InsertRange(v.free, Range(e.start, e.pages)));
            && Inv(v.(entries := es, free := fs))
            && EntryPages(es) == EntryPages(v.entries) - Pages(e.start, e.pages)
            && FreePages(fs) == FreePages(v.free) + Pages(e.start, e.pages)
  {
    hide Pages, EntryPages, FreePages, EntriesOk, FreeOk, InsertRange, Coalesce, Loose, Without;
    var e := v.entries[k];
    EntryPagesAt(v.entries, k);
    WithoutEntry(v.entries, k);
    FreeLoose(v);
    var f := Range(e.start, e.pages);
    InsertRangeLoose(v.free, f, v.avail);
    CoalesceOk(InsertRange(v.free, f), v.avail);
  }

  /** add_entry then remove_entry at the address it returned gives back the same available pages. */
  lemma AddThenRemove(v: Vme, size: nat, file: File, offset: nat, user: bool)
    requires Inv(v) && size < U32 && NoOverrun(v, size) && Required(size) > 0
    requires AddEntry(v, size, file, offset, user).1 != 0
    ensures var (v', va) := AddEntry(v, size, file, offset, user);
            Available(RemoveEntry(v', va, user)) == Available(v) && EntryPages(RemoveEntry(v', va, user).entries) == EntryPages(v.entries)
  {
    hide Pages, EntryPages, FreePages, EntriesOk, FreeOk, AddEntry, RemoveEntry, Covers, Available;
    AddEntryResult(v, size, file, offset, user);
    var (v', va) := AddEntry(v, size, file, offset, user);
    var e := Entry(va, Required(size), size, file, offset, user);
    assert e in v'.entries;
    var i :| 0 <= i < |v'.entries| && v'.entries[i] == e;
    CoversExact(v', i, va);
    StartPage(va, Required(size));
    FindIsExact(v', va);
    FindRemovableFirst(v'.entries, va, user);
    assert FindRemovable(v'.entries, va, user) == i;
    RemoveEntryResult(v', va, user);
    AddedApart(v, size, file, offset, user);
  }

  lemma StartPage(va: nat, n: nat)
    requires n > 0
    ensures va / PAGE in Pages(va, n)
  {
    assert IsPage(va, n, va / PAGE);
  }

  lemma AddedApart(v: Vme, size: nat, file: File, offset: nat, user: bool)
    requires Inv(v) && size < U32 && NoOverrun(v, size) && AddEntry(v, size, file, offset, user).1 != 0
    ensures EntryPages(v.entries) !! Pages(AddEntry(v, size, file, offset, user).1, Required(size))
  {
    hide Pages, EntryPages, FreePages, EntriesOk, FreeOk, AddEntry;
    AddEntryResult(v, size, file, offset, user);
    TopApart(v);
  }

  // ---------- requests whose rounding wraps ----------

  /** An accepted positive request gets pages that hold it exactly when `size + 4095` does not wrap. */
  lemma AcceptedHoldsIff(v: Vme, size: nat, file: File, offset: nat, user: bool)
    requires Inv(v) && 0 < size < U32 && NoOverrun(v, size) && AddEntry(v, size, file, offset, user).1 != 0
    ensures var (v', va) := AddEntry(v, size, file, offset, user);
            && Entry(va, Required(size), size, file, offset, user) in v'.entries
            && (size <= PAGE * Required(size) <==> size <= U32 - PAGE)
  {
    hide Inv, AddEntry, Required, EntryPages, Available;
    AddEntryResult(v, size, file, offset, user);
    RequiredExact(size);
    RoundedIff(size);
  }

  lemma RoundedIff(size: nat)
    requires 0 < size < U32
    ensures Required(size) == 0 <==> size > U32 - PAGE
  {
  }

  /** An entry of no pages covers nothing, so remove_entry never removes it. */
  lemma EmptyEntryStays(v: Vme, e: Entry, va: nat, user: bool)
    requires e in v.entries && e.pages == 0
    ensures e in RemoveEntry(v, va, user).entries
  {
    var k := FindRemovable(v.entries, va, user);
    if k < |v.entries| {
      FindRemovableFirst(v.entries, va, user);
      EmptyCovers(e, va);
      var i :| 0 <= i < |v.entries| && v.entries[i] == e;
      assert v.entries[k] != e;
      var r := Without(v.entries, k);
      assert i < k ==> r[i] == e;
      assert i > k ==> r[i - 1] == e;
    }
  }

  /** The largest request of all, on a fresh process: accepted, at an address with no page behind it, for ever. */
  lemma LargestRequestGetsNothing()
    ensures var v := Vme(0x8000_0000, 0x8000_0000, 0xF000_0000, [], []);
            var (v', va) := AddEntry(v, U32 - 1, NoFile, 0, true);
            && NoOverrun(v, U32 - 1) && va == 0x8000_0000 && v'.entries == [Entry(va, 0, U32 - 1, NoFile, 0, true)]
            && (forall a, user :: v'.entries[0] in RemoveEntry(v', a, user).entries)
  {
    var v := Vme(0x8000_0000, 0x8000_0000, 0xF000_0000, [], []);
    var (v', va) := AddEntry(v, U32 - 1, NoFile, 0, true);
    assert Required(U32 - 1) == 0;
    assert v'.entries == [Entry(va, 0, U32 - 1, NoFile, 0, true)];
    forall a, user
      ensures v'.entries[0] in RemoveEntry(v', a, user).entries
    {
      EmptyEntryStays(v', v'.entries[0], a, user);
    }
  }
}
