/** The range allocator of kernel/vme.cc: entries in use, free ranges, and the first address never given out.
    Addresses and sizes are 32-bit; sums that the code does not check are taken modulo 2^32. */
module VmeModel {
  import opened Basics

  function Wrap(x: nat): (r: nat)
    ensures r < U32
  {
    x % U32
  }

  datatype File = NoFile | File(id: nat)

  datatype Entry = Entry(start: nat, pages: nat, size: nat, file: File, offset: nat, user: bool)
  datatype Range = Range(start: nat, pages: nat)
  datatype Vme = Vme(base: nat, avail: nat, limit: nat, entries: seq<Entry>, free: seq<Range>)

  // ---------- page sets ----------

  /** Page numbers of `pages` pages from address `start`. */
  ghost function Pages(start: nat, pages: nat): set<int> {
    set p | start / PAGE <= p < start / PAGE + pages && IsPage(start, pages, p)
  }

  predicate IsPage(start: nat, pages: nat, p: int) {
    start / PAGE <= p < start / PAGE + pages
  }

  ghost function EntryPages(es: seq<Entry>): set<int> {
    if es == [] then {} else Pages(es[0].start, es[0].pages) + EntryPages(es[1..])
  }

  ghost function FreePages(fs: seq<Range>): set<int> {
    if fs == [] then {} else Pages(fs[0].start, fs[0].pages) + FreePages(fs[1..])
  }

  /** The pages a caller can still get. */
  ghost function Available(v: Vme): set<int> {
    FreePages(v.free) + Pages(v.avail, if v.avail <= v.limit then (v.limit - v.avail) / PAGE else 0)
  }

  // ---------- the invariant ----------

  predicate GoodEntry(e: Entry) {
    && e.start % PAGE == 0
    && (e.pages > 0 ==> PAGE * (e.pages - 1) < e.size <= PAGE * e.pages)
  }

  /** Sorted by start, with no page in two entries. */
  ghost predicate EntriesOk(es: seq<Entry>) {
    es != [] ==>
      && GoodEntry(es[0])
      && (forall e :: e in es[1..] ==> es[0].start <= e.start)
      && Pages(es[0].start, es[0].pages) !! EntryPages(es[1..])
      && EntriesOk(es[1..])
  }

  /** Sorted, non-empty, and with a gap between neighbours. */
  predicate FreeOk(fs: seq<Range>) {
    fs != [] ==>
      && fs[0].start % PAGE == 0 && fs[0].pages > 0
      && (|fs| > 1 ==> fs[0].start + PAGE * fs[0].pages < fs[1].start)
      && FreeOk(fs[1..])
  }

  ghost predicate Inv(v: Vme) {
    && v.base % PAGE == 0 && v.avail % PAGE == 0 && v.limit % PAGE == 0
    && 0 < v.base <= v.avail <= v.limit < U32
    && EntriesOk(v.entries)
    && FreeOk(v.free)
    && EntryPages(v.entries) !! FreePages(v.free)
    && EntryPages(v.entries) + FreePages(v.free) == Pages(v.base, (v.avail - v.base) / PAGE)
  }

  // ---------- the operations ----------

  function InsertEntry(es: seq<Entry>, e: Entry): seq<Entry> {
    if es == [] || es[0].start >= e.start then [e] + es else [es[0]] + InsertEntry(es[1..], e)
  }

  function InsertRange(fs: seq<Range>, f: Range): seq<Range> {
    if fs == [] || fs[0].start >= f.start then [f] + fs else [fs[0]] + InsertRange(fs[1..], f)
  }

  predicate Touch(a: Range, b: Range) {
    Wrap(a.start + Wrap(a.pages * PAGE)) == b.start
  }

  /** One pass that absorbs every range that starts where its predecessor ends. */
  function Coalesce(fs: seq<Range>): seq<Range>
    decreases |fs|
  {
    if |fs| < 2 then fs
    else if Touch(fs[0], fs[1]) then Coalesce([Range(fs[0].start, Wrap(fs[0].pages + fs[1].pages))] + fs[2..])
    else [fs[0]] + Coalesce(fs[1..])
  }

  predicate Covers(e: Entry, va: nat) {
    va >= e.start && va < Wrap(e.start + Wrap(e.pages * PAGE))
  }

  /** The first entry that covers va, |es| if there is none. */
  function Find(es: seq<Entry>, va: nat): (k: nat)
    ensures k <= |es|
  {
    if es == [] || Covers(es[0], va) then 0 else 1 + Find(es[1..], va)
  }

  /** The first entry remove_entry may remove. */
  function FindRemovable(es: seq<Entry>, va: nat, user: bool): (k: nat)
    ensures k <= |es|
  {
    if es == [] || (Covers(es[0], va) && (!user || es[0].user)) then 0 else 1 + FindRemovable(es[1..], va, user)
  }

  function FirstFit(fs: seq<Range>, n: nat): (k: nat)
    ensures k <= |fs|
    ensures k < |fs| ==> fs[k].pages >= n
  {
    if fs == [] || fs[0].pages >= n then 0 else 1 + FirstFit(fs[1..], n)
  }

  function Required(size: nat): nat {
    Wrap(size + PAGE - 1) / PAGE
  }

  /** The free list after n pages are cut from the front of range k. */
  function Cut(fs: seq<Range>, k: nat, n: nat): seq<Range>
    requires k < |fs| && n <= fs[k].pages
  {
    if fs[k].pages == n then fs[..k] + fs[k + 1..]
    else fs[k := Range(Wrap(fs[k].start + Wrap(n * PAGE)), fs[k].pages - n)]
  }

  /** add_entry: the new state and the address, 0 when there is no room. */
  function AddEntry(v: Vme, size: nat, file: File, offset: nat, user: bool): (Vme, nat) {
    var n := Required(size);
    var k := FirstFit(v.free, n);
    var (va, fs) := if k < |v.free| then (v.free[k].start, Cut(v.free, k, n)) else (0, v.free);
    if va == 0 && Wrap(v.avail + size) > v.limit then
      (v.(free := fs), 0)
    else
      var (at, top) := if va == 0 then (v.avail, Wrap(v.avail + Wrap(PAGE * n))) else (va, v.avail);
      (v.(avail := top, entries := InsertEntry(v.entries, Entry(at, n, size, file, offset, user)), free := fs), at)
  }

  function Without(es: seq<Entry>, k: nat): seq<Entry>
    requires k < |es|
  {
    es[..k] + es[k + 1..]
  }

  /** remove_entry: the new state; the entry removed, if any, is the one at FindRemovable. */
  function RemoveEntry(v: Vme, va: nat, user: bool): Vme {
    var k := FindRemovable(v.entries, va, user);
    if k == |v.entries| then v
    else
      v.(entries := Without(v.entries, k),
         free := Coalesce(InsertRange(v.free, Range(v.entries[k].start, v.entries[k].pages))))
  }

  // ---------- lists and page sets ----------

  lemma {:induction false} InEntryPages(es: seq<Entry>, p: int)
    ensures p in EntryPages(es) <==> exists e :: e in es && p in Pages(e.start, e.pages)
  {
    if es != [] {
      InEntryPages(es[1..], p);
      assert es == [es[0]] + es[1..];
      if p in EntryPages(es) {
        if p in Pages(es[0].start, es[0].pages) {
          assert es[0] in es;
        } else {
          var e :| e in es[1..] && p in Pages(e.start, e.pages);
          assert e in es;
        }
      }
    }
  }

  lemma {:induction false} InsertEntryPages(es: seq<Entry>, e: Entry)
    ensures EntryPages(InsertEntry(es, e)) == EntryPages(es) + Pages(e.start, e.pages)
    ensures forall x :: x in InsertEntry(es, e) <==> x in es || x == e
  {
    var r := InsertEntry(es, e);
    if es == [] || es[0].start >= e.start {
      assert r[1..] == es;
    } else {
      InsertEntryPages(es[1..], e);
      assert r[1..] == InsertEntry(es[1..], e);
      assert es == [es[0]] + es[1..];
    }
  }

  lemma {:induction false} InsertEntryOk(es: seq<Entry>, e: Entry)
    requires EntriesOk(es) && GoodEntry(e) && Pages(e.start, e.pages) !! EntryPages(es)
    ensures EntriesOk(InsertEntry(es, e))
  {
    var r := InsertEntry(es, e);
    if es == [] || es[0].start >= e.start {
      assert r[1..] == es;
      assert es != [] ==> es == [es[0]] + es[1..];
    } else {
      InsertEntryOk(es[1..], e);
      InsertEntryPages(es[1..], e);
      assert r[1..] == InsertEntry(es[1..], e);
    }
  }

  lemma {:induction false} WithoutEntry(es: seq<Entry>, k: nat)
    requires EntriesOk(es) && k < |es|
    ensures EntriesOk(Without(es, k))
    ensures EntryPages(Without(es, k)) !! Pages(es[k].start, es[k].pages)
    ensures EntryPages(Without(es, k)) + Pages(es[k].start, es[k].pages) == EntryPages(es)
    ensures forall e :: e in Without(es, k) ==> e in es
  {
    var r := Without(es, k);
    if k == 0 {
      assert r == es[1..];
    } else {
      WithoutEntry(es[1..], k - 1);
      assert r[1..] == Without(es[1..], k - 1) && r[0] == es[0];
      assert es[1..][k - 1] == es[k];
    }
  }

  // ---------- free ranges ----------

  lemma {:induction false} FreeOkFrom(fs: seq<Range>, i: nat)
    requires FreeOk(fs) && i < |fs|
    ensures FreeOk(fs[i..]) && fs[i].start % PAGE == 0 && fs[i].pages > 0
    ensures fs[0].start <= fs[i].start
  {
    if i > 0 {
      FreeOkFrom(fs[1..], i - 1);
      assert fs[1..][i - 1..] == fs[i..];
    }
  }

  /** Every page of a sorted free list starts at or after its first range. */
  lemma {:induction false} FreeAbove(fs: seq<Range>, p: int)
    requires FreeOk(fs) && p in FreePages(fs)
    ensures fs[0].start / PAGE <= p
  {
    if p !in Pages(fs[0].start, fs[0].pages) { FreeAbove(fs[1..], p); }
  }

  /** Sorted and disjoint, neighbours may touch; every range ends at or below `top`. */
  predicate Loose(fs: seq<Range>, top: nat) {
    fs != [] ==>
      && fs[0].start % PAGE == 0 && fs[0].pages > 0 && fs[0].start + PAGE * fs[0].pages <= top
      && (|fs| > 1 ==> fs[0].start + PAGE * fs[0].pages <= fs[1].start)
      && Loose(fs[1..], top)
  }

  /** A page range inside [base, top) ends at or below top. */
  lemma RangeBelow(start: nat, pages: nat, base: nat, top: nat)
    requires start % PAGE == 0 && base % PAGE == 0 && top % PAGE == 0 && base <= top && pages > 0
    requires Pages(start, pages) <= Pages(base, (top - base) / PAGE)
    ensures base <= start && start + PAGE * pages <= top
  {
    var first, last := start / PAGE, start / PAGE + pages - 1;
    assert IsPage(start, pages, first) && IsPage(start, pages, last);
    assert first in Pages(start, pages) && last in Pages(start, pages);
    assert IsPage(base, (top - base) / PAGE, first) && IsPage(base, (top - base) / PAGE, last);
  }

  lemma {:induction false} FreeIsLoose(fs: seq<Range>, base: nat, top: nat)
    requires FreeOk(fs) && base % PAGE == 0 && top % PAGE == 0 && base <= top
    requires FreePages(fs) <= Pages(base, (top - base) / PAGE)
    ensures Loose(fs, top)
    ensures fs != [] ==> base <= fs[0].start
  {
    if fs != [] {
      RangeBelow(fs[0].start, fs[0].pages, base, top);
      FreeIsLoose(fs[1..], base, top);
    }
  }

  /** Disjoint aligned ranges: one ends before the other starts. */
  lemma DisjointRanges(a: Range, b: Range)
    requires a.start % PAGE == 0 && b.start % PAGE == 0 && a.pages > 0 && b.pages > 0
    requires Pages(a.start, a.pages) !! Pages(b.start, b.pages)
    ensures a.start + PAGE * a.pages <= b.start || b.start + PAGE * b.pages <= a.start
  {
    var x, y := a.start / PAGE, b.start / PAGE;
    assert IsPage(a.start, a.pages, x) && IsPage(b.start, b.pages, y);
    assert x in Pages(a.start, a.pages) && y in Pages(b.start, b.pages);
    assert !IsPage(a.start, a.pages, y) && !IsPage(b.start, b.pages, x);
  }

  lemma {:induction false} InsertRangeLoose(fs: seq<Range>, f: Range, top: nat)
    requires Loose(fs, top) && f.start % PAGE == 0 && f.pages > 0 && f.start + PAGE * f.pages <= top
    requires Pages(f.start, f.pages) !! FreePages(fs)
    ensures Loose(InsertRange(fs, f), top)
    ensures FreePages(InsertRange(fs, f)) == FreePages(fs) + Pages(f.start, f.pages)
    ensures InsertRange(fs, f)[0] == if fs == [] || fs[0].start >= f.start then f else fs[0]
  {
    var r := InsertRange(fs, f);
    if fs != [] { DisjointRanges(f, fs[0]); }
    if fs == [] || fs[0].start >= f.start {
      assert r[1..] == fs;
    } else {
      InsertRangeLoose(fs[1..], f, top);
      assert r[1..] == InsertRange(fs[1..], f);
    }
  }

  lemma JoinPages(a: Range, b: Range)
    requires a.start % PAGE == 0 && a.start + PAGE * a.pages == b.start
    ensures Pages(a.start, a.pages + b.pages) == Pages(a.start, a.pages) + Pages(b.start, b.pages)
  {
    assert b.start / PAGE == a.start / PAGE + a.pages;
    forall p
      ensures IsPage(a.start, a.pages + b.pages, p) <==> IsPage(a.start, a.pages, p) || IsPage(b.start, b.pages, p)
    {
    }
  }

  /** Without wrap-around, ranges touch exactly when one ends where the other starts. */
  lemma TouchExact(a: Range, b: Range, top: nat)
    requires a.start + PAGE * a.pages <= top < U32 && b.start + PAGE * b.pages <= top
    requires a.start + PAGE * a.pages <= b.start
    ensures Touch(a, b) <==> a.start + PAGE * a.pages == b.start
    ensures Wrap(a.pages + b.pages) == a.pages + b.pages
  {
  }

  lemma JoinLoose(fs: seq<Range>, top: nat)
    requires |fs| >= 2 && Loose(fs, top) && fs[0].start + PAGE * fs[0].pages == fs[1].start
    ensures Loose([Range(fs[0].start, fs[0].pages + fs[1].pages)] + fs[2..], top)
    ensures FreePages([Range(fs[0].start, fs[0].pages + fs[1].pages)] + fs[2..]) == FreePages(fs)
  {
    var a, b, rest := fs[0], fs[1], fs[2..];
    var g := [Range(a.start, a.pages + b.pages)] + rest;
    assert fs[1..][1..] == rest && fs[1..][0] == b && g[1..] == rest;
    assert Loose(fs[1..], top);
    JoinPages(a, b);
    assert FreePages(fs) == Pages(a.start, a.pages) + FreePages(fs[1..]);
  }

  /** On sorted disjoint ranges one pass leaves no two ranges touching and keeps the set of pages. */
  lemma {:induction false} CoalesceOk(fs: seq<Range>, top: nat)
    requires Loose(fs, top) && top < U32
    ensures FreeOk(Coalesce(fs)) && FreePages(Coalesce(fs)) == FreePages(fs)
    ensures fs != [] ==> Coalesce(fs) != [] && Coalesce(fs)[0].start == fs[0].start
    decreases |fs|
  {
    hide Touch, Pages, Wrap;
    if |fs| >= 2 {
      assert Loose(fs[1..], top) && fs[1..][0] == fs[1];
      TouchExact(fs[0], fs[1], top);
      if Touch(fs[0], fs[1]) {
        JoinLoose(fs, top);
        CoalesceOk([Range(fs[0].start, fs[0].pages + fs[1].pages)] + fs[2..], top);
      } else {
        CoalesceOk(fs[1..], top);
        CoalesceHead(fs, top);
        var r := [fs[0]] + Coalesce(fs[1..]);
        assert r[1..] == Coalesce(fs[1..]) && r[0] == fs[0];
      }
    }
  }

  /** The first range left only grows, so a gap before it stays. */
  lemma CoalesceHead(fs: seq<Range>, top: nat)
    requires |fs| >= 2 && Loose(fs, top) && top < U32 && !Touch(fs[0], fs[1])
    ensures fs[0].start + PAGE * fs[0].pages < fs[1].start
  {
    assert Loose(fs[1..], top) && fs[1..][0] == fs[1];
    TouchExact(fs[0], fs[1], top);
  }
}
