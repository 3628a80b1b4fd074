/** Two-level page tables of kernel/vmm.cc in the 32-bit paging format: a directory and tables of 1024
    words, each word a frame number times 4096 plus flag bits, bit 0 the present bit. */
module Paging {
  import opened Basics
  import opened Frames

  const VPNS := 0x10_0000

  predicate Present(w: int) {
    w % 2 == 1
  }

  function FrameOf(w: int): int {
    w / PAGE
  }

  function Flags(w: int): int {
    w % PAGE
  }

  /** Bit b (a power of two) of w. */
  predicate Bit(w: int, b: int)
    requires b > 0
  {
    w / b % 2 == 1
  }

  const WRITE := 0x2
  const USER := 0x4
  const GLOBAL := 0x100

  /** w | bit. */
  function SetBit(w: nat, bit: nat, on: bool): nat
    requires bit > 0
  {
    if on && !Bit(w, bit) then w + bit else w
  }

  /** The flag bits that the code sets one by one. */
  datatype Bits = Bits(present: bool, write: bool, user: bool, global: bool)

  function BitsOf(w: int): Bits {
    Bits(Present(w), Bit(w, WRITE), Bit(w, USER), Bit(w, GLOBAL))
  }

  /** A multiple of 512 does not show in these bits. */
  lemma BitsApart(w: int, k: int)
    ensures BitsOf(w + 512 * k) == BitsOf(w)
  {
    EvenApart(w, 256 * k);
    BitApart2(w, 128 * k);
    BitApart4(w, 64 * k);
    BitApart256(w, k);
  }

  lemma EvenApart(r: int, k: int)
    ensures Present(r + 2 * k) <==> Present(r)
  {
  }

  lemma BitApart2(w: int, k: int)
    ensures Bit(w + 4 * k, 2) <==> Bit(w, 2)
  {
    assert (w + 4 * k) / 2 == w / 2 + 2 * k;
    EvenApart(w / 2, k);
  }

  lemma BitApart4(w: int, k: int)
    ensures Bit(w + 8 * k, 4) <==> Bit(w, 4)
  {
    assert (w + 8 * k) / 4 == w / 4 + 2 * k;
    EvenApart(w / 4, k);
  }

  lemma BitApart256(w: int, k: int)
    ensures Bit(w + 512 * k, 256) <==> Bit(w, 256)
  {
    assert (w + 512 * k) / 256 == w / 256 + 2 * k;
    EvenApart(w / 256, k);
  }

  /** `|= 0x2` sets that bit and no other. */
  lemma SetWrite(w: nat, on: bool)
    ensures BitsOf(SetBit(w, WRITE, on)) == BitsOf(w).(write := on || Bit(w, WRITE))
  {
    if on && !Bit(w, WRITE) {
      var k, r := w / 4, w % 4;
      assert w == 4 * k + r && r < 2;
      HighBits(k, r, r + 2);
    }
  }

  /** The bits above the low two depend on the rest only. */
  lemma HighBits(k: int, r: int, t: int)
    requires 0 <= r < 4 && 0 <= t < 4
    ensures Bit(4 * k + r, USER) <==> Bit(4 * k + t, USER)
    ensures Bit(4 * k + r, GLOBAL) <==> Bit(4 * k + t, GLOBAL)
  {
    assert (4 * k + r) / 4 == k && (4 * k + t) / 4 == k;
    assert (4 * k + r) / 256 == k / 64 && (4 * k + t) / 256 == k / 64;
  }

  lemma HighBit(k: int, r: int)
    requires 0 <= r < 8
    ensures (8 * k + r) / 256 == k / 32
  {
  }

  lemma SetUser(w: nat, on: bool)
    ensures BitsOf(SetBit(w, USER, on)) == BitsOf(w).(user := on || Bit(w, USER))
  {
    if on && !Bit(w, USER) {
      EvenApart(w, 2);
      BitApart2(w, 1);
      FlipUser(w);
    }
  }

  lemma FlipUser(w: nat)
    requires !Bit(w, USER)
    ensures Bit(w + 4, USER) && (Bit(w + 4, GLOBAL) <==> Bit(w, GLOBAL))
  {
    var q, r := w / 4, w % 4;
    var k := q / 2;
    assert w == 4 * q + r && q == 2 * k;
    assert w == 8 * k + r && (w + 4) / 4 == q + 1;
    HighBit(k, r);
    HighBit(k, r + 4);
  }

  lemma SetGlobal(w: nat, on: bool)
    ensures BitsOf(SetBit(w, GLOBAL, on)) == BitsOf(w).(global := on || Bit(w, GLOBAL))
  {
    if on && !Bit(w, GLOBAL) {
      EvenApart(w, 128);
      BitApart2(w, 64);
      BitApart4(w, 32);
    }
  }

  lemma SetPresent(w: nat)
    requires !Present(w)
    ensures BitsOf(w + 1) == BitsOf(w).(present := true)
  {
    var k, r := w / 4, w % 4;
    assert w == 4 * k + r && (r == 0 || r == 2);
    HighBits(k, r, r + 1);
    assert (w + 1) / 2 == w / 2;
  }

  /** The flags of the directory word that links a new table: the old low bits, the present bit and the requested ones. */
  function TableFlags(was: nat, global: bool, write: bool, user: bool): (r: nat)
    ensures r < PAGE
  {
    SetBit(SetBit(SetBit(was + 1, GLOBAL, global), WRITE, write), USER, user) % PAGE
  }

  lemma TableBits(was: nat, global: bool, write: bool, user: bool)
    requires !Present(was)
    ensures BitsOf(TableFlags(was, global, write, user)) ==
            Bits(true, write || Bit(was, WRITE), user || Bit(was, USER), global || Bit(was, GLOBAL))
  {
    hide Bit, SetBit;
    SetPresent(was);
    var w0 := was + 1;
    SetGlobal(w0, global);
    var w1 := SetBit(w0, GLOBAL, global);
    SetWrite(w1, write);
    var w2 := SetBit(w1, WRITE, write);
    SetUser(w2, user);
    var w3 := SetBit(w2, USER, user);
    BitsApart(w3 % PAGE, 8 * (w3 / PAGE));
    assert w3 % PAGE + 512 * (8 * (w3 / PAGE)) == w3;
  }

  /** The directory word that links table t. */
  function TableWord(was: nat, t: int, global: bool, write: bool, user: bool): (r: int)
    requires !Present(was)
    ensures Present(r) && FrameOf(r) == t && Flags(r) == TableFlags(was, global, write, user)
  {
    TableBits(was, global, write, user);
    Parts(TableFlags(was, global, write, user), t);
    TableFlags(was, global, write, user) + PAGE * t
  }

  /** The requested flags and the present bit. */
  function MapFlags(global: bool, write: bool, user: bool): (r: int)
    ensures 0 < r < PAGE && Present(r)
  {
    1 + (if global then GLOBAL else 0) + (if write then WRITE else 0) + (if user then USER else 0)
  }

  /** A word that was 0 gets exactly the requested flags. */
  lemma FreshTableFlags(global: bool, write: bool, user: bool)
    ensures TableFlags(0, global, write, user) == MapFlags(global, write, user)
  {
  }

  /** The present bit is among the flags. */
  lemma LowParity(w: int)
    ensures Present(w % PAGE) <==> Present(w)
  {
    EvenApart(w % PAGE, 2048 * (w / PAGE));
  }

  /** Flags and frame do not disturb each other. */
  lemma Parts(flags: int, t: int)
    requires 0 <= flags < PAGE
    ensures FrameOf(flags + PAGE * t) == t && Flags(flags + PAGE * t) == flags && (Present(flags + PAGE * t) <==> Present(flags))
  {
    EvenApart(flags, 2048 * t);
  }

  /** The table word that maps frame ppn. */
  function LeafWord(ppn: nat, global: bool, write: bool, user: bool): (r: nat)
    ensures Present(r) && FrameOf(r) == ppn && Flags(r) == MapFlags(global, write, user)
  {
    Parts(MapFlags(global, write, user), ppn);
    MapFlags(global, write, user) + PAGE * ppn
  }

  // ---------- reading ----------

  function WordAt(mem: map<int, seq<int>>, f: int, i: int): int {
    if f in mem && 0 <= i < |mem[f]| then mem[f][i] else 0
  }

  /** The table word for a page, 0 when its table is absent. */
  function Pte(mem: map<int, seq<int>>, pd: int, vpn: int): int {
    var e := WordAt(mem, pd, vpn / WORDS);
    if Present(e) then WordAt(mem, FrameOf(e), vpn % WORDS) else 0
  }

  /** The walk of the processor: bits 22 to 31 of an address choose the directory word, bits 12 to 21 the table word. */
  lemma WalkIs(mem: map<int, seq<int>>, pd: int, d: nat, t: nat, offset: nat)
    requires d < 1024 && t < 1024 && offset < 4096
    ensures var w := WordAt(mem, pd, d);
            Pte(mem, pd, (0x40_0000 * d + 0x1000 * t + offset) / PAGE) == if w % 2 == 1 then WordAt(mem, w / 0x1000, t) else 0
  {
    var vpn := (0x40_0000 * d + 0x1000 * t + offset) / PAGE;
    assert vpn == 1024 * d + t;
  }

  /** check_VPN. */
  predicate Mapped(mem: map<int, seq<int>>, pd: int, vpn: int) {
    Present(Pte(mem, pd, vpn))
  }

  // ---------- writing ----------

  predicate HasWord(p: Phys, f: int, i: int) {
    f in p.mem && |p.mem[f]| == WORDS && 0 <= i < WORDS
  }

  function SetWord(p: Phys, f: int, i: int, w: int): Phys
    requires HasWord(p, f, i)
  {
    p.(mem := p.mem[f := p.mem[f][i := w]])
  }

  lemma SetWordReads(p: Phys, f: int, i: int, w: int, g: int, j: int)
    requires HasWord(p, f, i)
    ensures WordAt(SetWord(p, f, i, w).mem, g, j) == if g == f && j == i then w else WordAt(p.mem, g, j)
  {
  }

  /** add_mapping needs a directory whose present entries name frames that exist. */
  predicate DirOk(p: Phys, pd: int, vpn: int) {
    && 0 <= vpn < VPNS && HasWord(p, pd, vpn / WORDS) && 0 <= p.mem[pd][vpn / WORDS]
    && (Present(p.mem[pd][vpn / WORDS]) ==> HasWord(p, FrameOf(p.mem[pd][vpn / WORDS]), vpn % WORDS))
    && CanAlloc(p)
  }

  /** The first half of add_mapping: find or build the table. */
  function WithTable(p: Phys, pd: int, vpn: int, global: bool, write: bool, user: bool): (r: Maybe<(Phys, int)>)
    requires DirOk(p, pd, vpn)
    ensures r.Done? ==> HasWord(r.value.0, r.value.1, vpn % WORDS)
  {
    var e := p.mem[pd][vpn / WORDS];
    if Present(e) then Done((p, FrameOf(e)))
    else
      match Alloc(p)
      case Panic => Panic
      case Done((p1, t)) =>
        Done((SetWord(p1, pd, vpn / WORDS, TableWord(e, t, global, write, user)), t))
  }

  function AddMapping(p: Phys, pd: int, vpn: int, ppn: nat, global: bool, write: bool, user: bool): Maybe<Phys>
    requires DirOk(p, pd, vpn)
  {
    match WithTable(p, pd, vpn, global, write, user)
    case Panic => Panic
    case Done((p1, t)) =>
      Done(SetWord(p1, t, vpn % WORDS, LeafWord(ppn, global, write, user)))
  }

  predicate LeafOk(p: Phys, pd: int, vpn: int) {
    Mapped(p.mem, pd, vpn) ==>
      && FrameOf(Pte(p.mem, pd, vpn)) in p.mem
      && |p.mem[FrameOf(Pte(p.mem, pd, vpn))]| == WORDS
  }

  function RemoveMapping(p: Phys, pd: int, vpn: int): Phys
    requires DirOk(p, pd, vpn) && LeafOk(p, pd, vpn)
  {
    var e := p.mem[pd][vpn / WORDS];
    if !Present(e) then p
    else
      var t := FrameOf(e);
      var p1 := if Present(p.mem[t][vpn % WORDS]) then Dealloc(p, FrameOf(p.mem[t][vpn % WORDS])) else p;
      SetWord(p1, t, vpn % WORDS, 0)
  }

  // ---------- add_mapping and remove_mapping refine a finite map ----------

  /** Table i of the directory is a frame in use, other than the directory and the tables before it. */
  ghost predicate TableAt(p: Phys, lo: int, free: seq<int>, pd: int, i: int) {
    Present(WordAt(p.mem, pd, i)) ==>
      && Taken(p, lo, free, FrameOf(WordAt(p.mem, pd, i)))
      && FrameOf(WordAt(p.mem, pd, i)) != pd
  }

  ghost predicate Apart(p: Phys, pd: int, i: int, j: int) {
    Present(WordAt(p.mem, pd, i)) && Present(WordAt(p.mem, pd, j)) && i != j ==>
      FrameOf(WordAt(p.mem, pd, i)) != FrameOf(WordAt(p.mem, pd, j))
  }

  /** A directory whose tables are distinct frames in use. */
  ghost predicate Tree(p: Phys, lo: int, free: seq<int>, pd: int) {
    && Frames.Inv(p, lo, free)
    && Taken(p, lo, free, pd)
    && (forall i {:trigger WordAt(p.mem, pd, i)} :: 0 <= WordAt(p.mem, pd, i))
    && (forall i {:trigger TableAt(p, lo, free, pd, i)} :: TableAt(p, lo, free, pd, i))
    && (forall i, j {:trigger Apart(p, pd, i, j)} :: Apart(p, pd, i, j))
  }

  lemma TreeDir(p: Phys, lo: int, free: seq<int>, pd: int, vpn: int)
    requires Tree(p, lo, free, pd) && 0 <= vpn < VPNS
    ensures DirOk(p, pd, vpn)
  {
    assert TableAt(p, lo, free, pd, vpn / WORDS);
    assert 0 <= WordAt(p.mem, pd, vpn / WORDS);
    AllocResult(p, lo, free);
  }

  ghost function FreeAfter(p: Phys, free: seq<int>, pd: int, vpn: int): seq<int> {
    if Present(WordAt(p.mem, pd, vpn / WORDS)) then free else NextFree(free)
  }

  /** The directory words all stay, but a missing table's word, which names the new table with the old low bits and the
      requested flags. */
  ghost predicate DirAfter(p: Phys, p': Phys, pd: int, i: int, global: bool, write: bool, user: bool)
    requires 0 <= WordAt(p.mem, pd, i)
  {
    && (forall j {:trigger WordAt(p'.mem, pd, j)} ::
          j != i || Present(WordAt(p.mem, pd, i)) ==> WordAt(p'.mem, pd, j) == WordAt(p.mem, pd, j))
    && Present(WordAt(p'.mem, pd, i))
    && (!Present(WordAt(p.mem, pd, i)) ==> Flags(WordAt(p'.mem, pd, i)) == TableFlags(WordAt(p.mem, pd, i), global, write, user))
  }

  /** Building the missing table, perhaps in a recycled frame, changes no translation. */
  lemma WithTableKeeps(p: Phys, lo: int, free: seq<int>, pd: int, vpn: int, global: bool, write: bool, user: bool)
    requires Tree(p, lo, free, pd) && 0 <= vpn < VPNS
    ensures DirOk(p, pd, vpn)
    ensures WithTable(p, pd, vpn, global, write, user).Panic? <==> !Present(WordAt(p.mem, pd, vpn / WORDS)) && free == [] && p.avail == p.limit
    ensures WithTable(p, pd, vpn, global, write, user).Done? ==>
              var (p1, t) := WithTable(p, pd, vpn, global, write, user).value;
              && Tree(p1, lo, FreeAfter(p, free, pd, vpn), pd)
              && HasWord(p1, t, vpn % WORDS) && Present(WordAt(p1.mem, pd, vpn / WORDS)) && FrameOf(WordAt(p1.mem, pd, vpn / WORDS)) == t
              && DirAfter(p, p1, pd, vpn / WORDS, global, write, user)
              && (forall v {:trigger Pte(p1.mem, pd, v)} :: Pte(p1.mem, pd, v) == Pte(p.mem, pd, v))
  {
    TreeDir(p, lo, free, pd, vpn);
    var i := vpn / WORDS;
    assert TableAt(p, lo, free, pd, i);
    if !Present(p.mem[pd][i]) {
      AllocResult(p, lo, free);
      if Alloc(p).Done? {
        NewTable(p, lo, free, pd, i, global, write, user);
      }
    }
  }

  lemma NewTable(p: Phys, lo: int, free: seq<int>, pd: int, i: int, global: bool, write: bool, user: bool)
    requires Tree(p, lo, free, pd) && HasWord(p, pd, i) && 0 <= p.mem[pd][i] && !Present(p.mem[pd][i])
    requires CanAlloc(p) && Alloc(p).Done?
    ensures var (p1, t) := Alloc(p).value;
            && t >= 0 && HasWord(p1, pd, i) && p1.mem[pd][i] == p.mem[pd][i]
            && var p2 := SetWord(p1, pd, i, TableWord(p.mem[pd][i], t, global, write, user));
            && Tree(p2, lo, NextFree(free), pd) && t in p2.mem && |p2.mem[t]| == WORDS
            && DirAfter(p, p2, pd, i, global, write, user)
            && (forall v {:trigger Pte(p2.mem, pd, v)} :: Pte(p2.mem, pd, v) == Pte(p.mem, pd, v))
  {
    AllocResult(p, lo, free);
    var (p1, t) := Alloc(p).value;
    var free' := NextFree(free);
    var w := TableWord(p.mem[pd][i], t, global, write, user);
    var p2 := SetWord(p1, pd, i, w);
    WriteKeepsInv(p1, lo, free', pd, p1.mem[pd][i := w]);
    forall j
      ensures WordAt(p2.mem, pd, j) == if j == i then w else WordAt(p.mem, pd, j)
    {
    }
    NewTableTree(p, p2, lo, free, free', pd, i, t, w);
    forall v
      ensures Pte(p2.mem, pd, v) == Pte(p.mem, pd, v)
    {
      var j := v / WORDS;
      assert TableAt(p, lo, free, pd, j);
    }
  }

  lemma NewTableTree(p: Phys, p2: Phys, lo: int, free: seq<int>, free': seq<int>, pd: int, i: int, t: int, w: int)
    requires Tree(p, lo, free, pd) && Frames.Inv(p2, lo, free') && 0 <= w && Present(w) && FrameOf(w) == t
    requires !Taken(p, lo, free, t) && forall g :: Taken(p2, lo, free', g) <==> Taken(p, lo, free, g) || g == t
    requires !Present(WordAt(p.mem, pd, i))
    requires forall j :: WordAt(p2.mem, pd, j) == if j == i then w else WordAt(p.mem, pd, j)
    ensures Tree(p2, lo, free', pd)
  {
    hide Frames.Inv, Taken;
    forall j {:trigger TableAt(p2, lo, free', pd, j)}
      ensures TableAt(p2, lo, free', pd, j)
    {
      assert TableAt(p, lo, free, pd, j);
    }
    forall j, k {:trigger Apart(p2, pd, j, k)}
      ensures Apart(p2, pd, j, k)
    {
      assert Apart(p, pd, j, k) && TableAt(p, lo, free, pd, j) && TableAt(p, lo, free, pd, k);
    }
    forall j {:trigger WordAt(p2.mem, pd, j)}
      ensures 0 <= WordAt(p2.mem, pd, j)
    {
    }
  }

  /** Writing one word of table vpn / WORDS changes the translation of vpn only. */
  lemma SetPte(p: Phys, lo: int, free: seq<int>, pd: int, vpn: int, w: int)
    requires Tree(p, lo, free, pd) && 0 <= vpn < VPNS && Present(WordAt(p.mem, pd, vpn / WORDS))
    ensures HasWord(p, FrameOf(WordAt(p.mem, pd, vpn / WORDS)), vpn % WORDS)
    ensures var p' := SetWord(p, FrameOf(WordAt(p.mem, pd, vpn / WORDS)), vpn % WORDS, w);
            && Tree(p', lo, free, pd)
            && (forall j {:trigger WordAt(p'.mem, pd, j)} :: WordAt(p'.mem, pd, j) == WordAt(p.mem, pd, j))
            && (forall v {:trigger Pte(p'.mem, pd, v)} :: Pte(p'.mem, pd, v) == if v == vpn then w else Pte(p.mem, pd, v))
  {
    var i, k := vpn / WORDS, vpn % WORDS;
    var t := FrameOf(WordAt(p.mem, pd, i));
    assert TableAt(p, lo, free, pd, i);
    var p' := SetWord(p, t, k, w);
    WriteKeepsInv(p, lo, free, t, p.mem[t][k := w]);
    SameDirTree(p, p', lo, free, pd);
    forall v
      ensures Pte(p'.mem, pd, v) == if v == vpn then w else Pte(p.mem, pd, v)
    {
      assert Apart(p, pd, i, v / WORDS);
      SetWordReads(p, t, k, w, FrameOf(WordAt(p.mem, pd, v / WORDS)), v % WORDS);
    }
  }

  /** The same directory words and the same frames in use give the same tree. */
  lemma SameDirTree(p: Phys, p': Phys, lo: int, free: seq<int>, pd: int)
    requires Tree(p, lo, free, pd) && Frames.Inv(p', lo, free) && p'.avail == p.avail
    requires forall j :: WordAt(p'.mem, pd, j) == WordAt(p.mem, pd, j)
    ensures Tree(p', lo, free, pd)
  {
    hide Frames.Inv;
    forall j {:trigger TableAt(p', lo, free, pd, j)}
      ensures TableAt(p', lo, free, pd, j)
    {
      assert TableAt(p, lo, free, pd, j);
    }
    forall j, k {:trigger Apart(p', pd, j, k)}
      ensures Apart(p', pd, j, k)
    {
      assert Apart(p, pd, j, k);
    }
  }

  /** add_mapping is a map update at vpn, whatever the recycled frame of a new table held before. */
  lemma AddMappingRefines(p: Phys, lo: int, free: seq<int>, pd: int, vpn: int, ppn: nat, global: bool, write: bool, user: bool)
    requires Tree(p, lo, free, pd) && 0 <= vpn < VPNS
    ensures DirOk(p, pd, vpn)
    ensures AddMapping(p, pd, vpn, ppn, global, write, user).Panic? <==> !Present(WordAt(p.mem, pd, vpn / WORDS)) && free == [] && p.avail == p.limit
    ensures AddMapping(p, pd, vpn, ppn, global, write, user).Done? ==>
              var p' := AddMapping(p, pd, vpn, ppn, global, write, user).value;
              && Tree(p', lo, FreeAfter(p, free, pd, vpn), pd)
              && DirAfter(p, p', pd, vpn / WORDS, global, write, user)
              && (forall v {:trigger Pte(p'.mem, pd, v)} ::
                    Pte(p'.mem, pd, v) == if v == vpn then LeafWord(ppn, global, write, user) else Pte(p.mem, pd, v))
  {
    hide Tree, Pte;
    WithTableKeeps(p, lo, free, pd, vpn, global, write, user);
    if WithTable(p, pd, vpn, global, write, user).Done? {
      var (p1, t) := WithTable(p, pd, vpn, global, write, user).value;
      SetPte(p1, lo, FreeAfter(p, free, pd, vpn), pd, vpn, LeafWord(ppn, global, write, user));
    }
  }

  /** The frame mapped at vpn is in use and is neither the directory nor one of its tables. */
  ghost predicate PlainLeaf(p: Phys, lo: int, free: seq<int>, pd: int, vpn: int) {
    Mapped(p.mem, pd, vpn) ==>
      && Taken(p, lo, free, FrameOf(Pte(p.mem, pd, vpn)))
      && FrameOf(Pte(p.mem, pd, vpn)) != pd
      && (forall i {:trigger WordAt(p.mem, pd, i)} :: Present(WordAt(p.mem, pd, i)) ==> FrameOf(WordAt(p.mem, pd, i)) != FrameOf(Pte(p.mem, pd, vpn)))
  }

  /** remove_mapping deletes vpn from the map and returns its frame to the free list. */
  lemma RemoveMappingRefines(p: Phys, lo: int, free: seq<int>, pd: int, vpn: int)
    requires Tree(p, lo, free, pd) && 0 <= vpn < VPNS && PlainLeaf(p, lo, free, pd, vpn)
    ensures DirOk(p, pd, vpn) && LeafOk(p, pd, vpn)
    ensures var p' := RemoveMapping(p, pd, vpn);
            && Tree(p', lo, if Mapped(p.mem, pd, vpn) then [FrameOf(Pte(p.mem, pd, vpn))] + free else free, pd)
            && (forall j {:trigger WordAt(p'.mem, pd, j)} :: WordAt(p'.mem, pd, j) == WordAt(p.mem, pd, j))
            && (forall v {:trigger Pte(p'.mem, pd, v)} :: Pte(p'.mem, pd, v) == if v == vpn then 0 else Pte(p.mem, pd, v))
  {
    TreeDir(p, lo, free, pd, vpn);
    var i := vpn / WORDS;
    if Present(WordAt(p.mem, pd, i)) {
      if Mapped(p.mem, pd, vpn) {
        var f := FrameOf(Pte(p.mem, pd, vpn));
        FreeLeaf(p, lo, free, pd, vpn);
        SetPte(Dealloc(p, f), lo, [f] + free, pd, vpn, 0);
      } else {
        SetPte(p, lo, free, pd, vpn, 0);
      }
    }
  }

  lemma FreeLeaf(p: Phys, lo: int, free: seq<int>, pd: int, vpn: int)
    requires Tree(p, lo, free, pd) && PlainLeaf(p, lo, free, pd, vpn) && Mapped(p.mem, pd, vpn)
    ensures var f := FrameOf(Pte(p.mem, pd, vpn));
            && f in p.mem && |p.mem[f]| == WORDS
            && Tree(Dealloc(p, f), lo, [f] + free, pd)
            && (forall j {:trigger WordAt(Dealloc(p, f).mem, pd, j)} :: WordAt(Dealloc(p, f).mem, pd, j) == WordAt(p.mem, pd, j))
            && (forall v {:trigger Pte(Dealloc(p, f).mem, pd, v)} :: Pte(Dealloc(p, f).mem, pd, v) == Pte(p.mem, pd, v))
  {
    var f := FrameOf(Pte(p.mem, pd, vpn));
    DeallocResult(p, lo, free, f);
    var p', free' := Dealloc(p, f), [f] + free;
    forall j {:trigger TableAt(p', lo, free', pd, j)}
      ensures TableAt(p', lo, free', pd, j)
    {
      assert TableAt(p, lo, free, pd, j);
    }
    forall j, k {:trigger Apart(p', pd, j, k)}
      ensures Apart(p', pd, j, k)
    {
      assert Apart(p, pd, j, k);
    }
    forall j {:trigger WordAt(p'.mem, pd, j)}
      ensures 0 <= WordAt(p'.mem, pd, j)
    {
      assert WordAt(p'.mem, pd, j) == WordAt(p.mem, pd, j);
    }
    forall v
      ensures Pte(p'.mem, pd, v) == Pte(p.mem, pd, v)
    {
      assert TableAt(p, lo, free, pd, v / WORDS);
    }
  }
}
