/** The allocator as the kernel runs it: two sorted lists changed in place by search loops. */
module VmeClass {
  import opened Basics
  import opened VmeModel
  import opened VmeProofs

  lemma {:induction false} InsertEntryAt(es: seq<Entry>, e: Entry, i: nat)
    requires i <= |es| && (forall j :: 0 <= j < i ==> es[j].start < e.start)
    requires i < |es| ==> es[i].start >= e.start
    ensures InsertEntry(es, e) == es[..i] + [e] + es[i..]
  {
    if i > 0 {
      InsertEntryAt(es[1..], e, i - 1);
      assert es[..i] == [es[0]] + es[1..][..i - 1] && es[1..][i - 1..] == es[i..];
    } else {
      assert es[..0] + [e] + es[0..] == [e] + es;
    }
  }

  lemma {:induction false} InsertRangeAt(fs: seq<Range>, f: Range, i: nat)
    requires i <= |fs| && (forall j :: 0 <= j < i ==> fs[j].start < f.start)
    requires i < |fs| ==> fs[i].start >= f.start
    ensures InsertRange(fs, f) == fs[..i] + [f] + fs[i..]
  {
    if i > 0 {
      InsertRangeAt(fs[1..], f, i - 1);
      assert fs[..i] == [fs[0]] + fs[1..][..i - 1] && fs[1..][i - 1..] == fs[i..];
    } else {
      assert fs[..0] + [f] + fs[0..] == [f] + fs;
    }
  }

  lemma {:induction false} FindAt(es: seq<Entry>, va: nat, i: nat)
    requires i <= |es| && (forall j :: 0 <= j < i ==> !Covers(es[j], va)) && (i < |es| ==> Covers(es[i], va))
    ensures Find(es, va) == i
  {
    if i > 0 { FindAt(es[1..], va, i - 1); }
  }

  lemma {:induction false} FindRemovableAt(es: seq<Entry>, va: nat, user: bool, i: nat)
    requires i <= |es| && (forall j :: 0 <= j < i ==> !(Covers(es[j], va) && (!user || es[j].user)))
    requires i < |es| ==> Covers(es[i], va) && (!user || es[i].user)
    ensures FindRemovable(es, va, user) == i
  {
    if i > 0 { FindRemovableAt(es[1..], va, user, i - 1); }
  }

  lemma {:induction false} FirstFitAt(fs: seq<Range>, n: nat, i: nat)
    requires i <= |fs| && (forall j :: 0 <= j < i ==> fs[j].pages < n) && (i < |fs| ==> fs[i].pages >= n)
    ensures FirstFit(fs, n) == i
  {
    if i > 0 { FirstFitAt(fs[1..], n, i - 1); }
  }

  /** The list when the pass has reached range i. */
  function CoalesceFrom(fs: seq<Range>, i: nat): seq<Range>
    requires i <= |fs|
  {
    fs[..i] + Coalesce(fs[i..])
  }

  function Merged(fs: seq<Range>, i: nat): seq<Range>
    requires i + 1 < |fs|
  {
    fs[..i] + [Range(fs[i].start, Wrap(fs[i].pages + fs[i + 1].pages))] + fs[i + 2..]
  }

  lemma CoalesceTurn(fs: seq<Range>, i: nat)
    requires i + 1 < |fs|
    ensures Touch(fs[i], fs[i + 1]) ==> CoalesceFrom(fs, i) == CoalesceFrom(Merged(fs, i), i)
    ensures !Touch(fs[i], fs[i + 1]) ==> CoalesceFrom(fs, i) == CoalesceFrom(fs, i + 1)
  {
    hide Touch, Wrap;
    var rest := fs[i..];
    assert rest[0] == fs[i] && rest[1] == fs[i + 1] && rest[2..] == fs[i + 2..] && rest[1..] == fs[i + 1..];
    assert Merged(fs, i)[..i] == fs[..i] && Merged(fs, i)[i..] == [Merged(fs, i)[i]] + fs[i + 2..];
    assert fs[..i + 1] == fs[..i] + [fs[i]];
  }

  lemma CoalesceEnds(fs: seq<Range>, i: nat)
    requires i <= |fs| <= i + 1
    ensures CoalesceFrom(fs, i) == fs
  {
    assert fs[..i] + fs[i..] == fs;
  }

  lemma CoalesceStarts(fs: seq<Range>)
    ensures CoalesceFrom(fs, 0) == Coalesce(fs)
  {
    assert fs[0..] == fs;
  }

  class VME {
    const base: nat
    const limit: nat
    var avail: nat
    var entries: seq<Entry>
    var free: seq<Range>

    ghost function State(): Vme
      reads this
    {
      Vme(base, avail, limit, entries, free)
    }

    constructor (start: nat, end: nat)
      ensures State() == Vme(start, start, end, [], [])
    {
      base, limit, avail := start, end, start;
      entries, free := [], [];
    }

    method InsertEntrySorted(e: Entry)
      modifies this`entries
      ensures entries == InsertEntry(old(entries), e)
    {
      var i := 0;
      while i < |entries| && entries[i].start < e.start
        invariant 0 <= i <= |entries|
        invariant forall j :: 0 <= j < i ==> entries[j].start < e.start
      {
        i := i + 1;
      }
      InsertEntryAt(entries, e, i);
      entries := entries[..i] + [e] + entries[i..];
    }

    method Coalescing()
      modifies this`free
      ensures free == Coalesce(old(free))
    {
      hide Touch, Wrap, CoalesceFrom, Coalesce;
      CoalesceStarts(free);
      var i := 0;
      while i + 1 < |free|
        invariant 0 <= i && (i < |free| || (i == 0 && free == []))
        invariant CoalesceFrom(free, i) == Coalesce(old(free))
        decreases |free| - i
      {
        CoalesceTurn(free, i);
        if Touch(free[i], free[i + 1]) {
          free := free[..i] + [Range(free[i].start, Wrap(free[i].pages + free[i + 1].pages))] + free[i + 2..];
        } else {
          i := i + 1;
        }
      }
      CoalesceEnds(free, i);
    }

    method InsertFreeSpace(f: Range)
      modifies this`free
      ensures free == Coalesce(InsertRange(old(free), f))
    {
      var i := 0;
      while i < |free| && free[i].start < f.start
        invariant 0 <= i <= |free|
        invariant forall j :: 0 <= j < i ==> free[j].start < f.start
      {
        i := i + 1;
      }
      InsertRangeAt(free, f, i);
      free := free[..i] + [f] + free[i..];
      Coalescing();
    }

    /** get: the entry that covers va, if one does. */
    method Get(va: nat) returns (found: bool, e: Entry)
      requires Inv(State())
      ensures found <==> va / PAGE in EntryPages(entries)
      ensures found ==> e in entries && Covers(e, va)
      ensures found ==> forall i :: 0 <= i < |entries| && Covers(entries[i], va) ==> entries[i] == e
    {
      hide Inv, Covers, EntryPages;
      FindIsExact(State(), va);
      var i := 0;
      while i < |entries|
        invariant 0 <= i <= |entries|
        invariant forall j :: 0 <= j < i ==> !Covers(entries[j], va)
      {
        if Covers(entries[i], va) {
          FindAt(entries, va, i);
          return true, entries[i];
        }
        i := i + 1;
      }
      FindAt(entries, va, i);
      found, e := false, Entry(0, 0, 0, NoFile, 0, false);
    }

    /** The first half of add_entry: the first free range with room, cut or removed; 0 when there is none. */
    method TakeFree(n: nat) returns (va: nat)
      modifies this`free
      ensures var k := FirstFit(old(free), n);
              if k < |old(free)| then va == old(free)[k].start && free == Cut(old(free), k, n) else va == 0 && free == old(free)
    {
      hide Wrap;
      var i := 0;
      while i < |free|
        invariant 0 <= i <= |free| && free == old(free)
        invariant forall j :: 0 <= j < i ==> free[j].pages < n
      {
        if free[i].pages >= n {
          break;
        }
        i := i + 1;
      }
      FirstFitAt(free, n, i);
      if i == |free| { return 0; }
      va := free[i].start;
      var rest := Range(Wrap(free[i].start + Wrap(n * PAGE)), free[i].pages - n);
      if rest.pages == 0 {
        free := free[..i] + free[i + 1..];
      } else {
        free := free[i := rest];
      }
    }

    method AddEntry(size: nat, file: File, offset: nat, user: bool) returns (va: nat)
      modifies this
      ensures (State(), va) == VmeModel.AddEntry(old(State()), size, file, offset, user)
    {
      hide Wrap, Cut, FirstFit, InsertEntry;
      var requiredPages := Wrap(size + PAGE - 1) / PAGE;
      va := TakeFree(requiredPages);
      if va == 0 {
        if Wrap(avail + size) > limit {
          return 0;
        }
        va := avail;
        avail := Wrap(avail + Wrap(PAGE * requiredPages));
      }
      InsertEntrySorted(Entry(va, requiredPages, size, file, offset, user));
    }

    method RemoveEntry(va: nat, user: bool)
      modifies this
      ensures State() == VmeModel.RemoveEntry(old(State()), va, user)
    {
      var i := 0;
      while i < |entries|
        invariant 0 <= i <= |entries| && State() == old(State())
        invariant forall j :: 0 <= j < i ==> !(Covers(entries[j], va) && (!user || entries[j].user))
      {
        if Covers(entries[i], va) && (!user || entries[i].user) {
          FindRemovableAt(entries, va, user, i);
          var f := Range(entries[i].start, entries[i].pages);
          entries := entries[..i] + entries[i + 1..];
          InsertFreeSpace(f);
          return;
        }
        i := i + 1;
      }
      FindRemovableAt(entries, va, user, i);
    }
  }
}
