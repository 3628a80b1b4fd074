/** StrongPtr and WeakPtr of kernel/shared.h: every sequence of whole handle operations. */
module RefCounts {
  import opened Basics
  import opened Counting

  datatype Ptr = Null | To(block: int)
  datatype Obj = NoObj | Obj(id: int)

  /** The count block behind the handles of one object. */
  datatype Block = Block(obj: Obj, strong: nat, weak: nat)

  /** Handles by name.  `home` is the block of each object ever wrapped, `used` the blocks ever made; `destroyed` and
      `freed` log every deletion. */
  datatype State = State(blocks: map<int, Block>, strong: map<int, Ptr>, weak: map<int, Ptr>,
                         home: map<int, int>, used: set<int>, destroyed: seq<int>, freed: seq<int>)

  // ---------- the functions of impl::shared ----------

  predicate Live(s: State, p: Ptr) {
    p.To? ==> p.block in s.blocks
  }

  function AddStrong(s: State, p: Ptr): (r: State)
    requires Live(s, p)
    ensures r.strong == s.strong && r.weak == s.weak && r.home == s.home && r.used == s.used
  {
    if p.Null? || s.blocks[p.block].obj.NoObj? then s
    else s.(blocks := s.blocks[p.block := s.blocks[p.block].(strong := s.blocks[p.block].strong + 1)])
  }

  /** The assertions of drop_strong. */
  predicate CanDropStrong(s: State, p: Ptr) {
    p.To? ==> p.block in s.blocks && s.blocks[p.block].strong > 0 && s.blocks[p.block].obj.Obj?
  }

  /** The last strong handle deletes the object, and the block too when no weak handle is left. */
  function DropStrong(s: State, p: Ptr): (r: State)
    requires CanDropStrong(s, p)
    ensures r.strong == s.strong && r.weak == s.weak && r.home == s.home && r.used == s.used
  {
    if p.Null? then s
    else
      var b := OneFewer(s.blocks[p.block]);
      var gone := if b.strong == 0 then s.destroyed + [s.blocks[p.block].obj.id] else s.destroyed;
      if b.strong == 0 && b.weak == 0 then s.(blocks := s.blocks - {p.block}, destroyed := gone, freed := s.freed + [p.block])
      else s.(blocks := s.blocks[p.block := b], destroyed := gone)
  }

  /** What drop_strong makes of the fields of a block. */
  function OneFewer(b: Block): Block
    requires b.strong > 0
  {
    Block(if b.strong == 1 then NoObj else b.obj, b.strong - 1, b.weak)
  }

  predicate CanAddWeak(s: State, p: Ptr) {
    p.To? ==> p.block in s.blocks && (s.blocks[p.block].weak > 0 || s.blocks[p.block].strong > 0)
  }

  function AddWeak(s: State, p: Ptr): (r: State)
    requires CanAddWeak(s, p)
    ensures r.strong == s.strong && r.weak == s.weak && r.home == s.home && r.used == s.used
  {
    if p.Null? then s
    else s.(blocks := s.blocks[p.block := s.blocks[p.block].(weak := s.blocks[p.block].weak + 1)])
  }

  predicate CanDropWeak(s: State, p: Ptr) {
    p.To? ==> p.block in s.blocks && s.blocks[p.block].weak > 0
  }

  function DropWeak(s: State, p: Ptr): (r: State)
    requires CanDropWeak(s, p)
    ensures r.strong == s.strong && r.weak == s.weak && r.home == s.home && r.used == s.used
  {
    if p.Null? then s
    else
      var b := s.blocks[p.block];
      if b.weak == 1 && b.strong == 0 then s.(blocks := s.blocks - {p.block}, freed := s.freed + [p.block])
      else s.(blocks := s.blocks[p.block := b.(weak := b.weak - 1)])
  }

  function PromoteWeak(s: State, p: Ptr): (State, Ptr)
    requires CanDropWeak(s, p)
  {
    if p.Null? then (s, Null)
    else if s.blocks[p.block].strong > 0 then
      (s.(blocks := s.blocks[p.block := s.blocks[p.block].(strong := s.blocks[p.block].strong + 1)]), p)
    else (s, Null)
  }

  /** new Intermediate. */
  function Wrap(s: State, b: int, o: int): State {
    s.(blocks := s.blocks[b := Block(Obj(o), 1, 0)], home := s.home[o := b], used := s.used + {b})
  }

  // ---------- the invariant ----------

  ghost function Strongs(s: State, b: int): nat {
    Count(s.strong, (p: Ptr) => p == To(b))
  }

  ghost function Weaks(s: State, b: int): nat {
    Count(s.weak, (p: Ptr) => p == To(b))
  }

  /** Counts equal handles; a block exists exactly while it has handles; the object exactly while a strong one does. */
  ghost predicate BlockOk(s: State, b: int) {
    if b in s.blocks then
      && s.blocks[b].strong == Strongs(s, b) && s.blocks[b].weak == Weaks(s, b)
      && s.blocks[b].strong + s.blocks[b].weak > 0
      && (s.blocks[b].obj.Obj? <==> s.blocks[b].strong > 0)
      && (s.blocks[b].obj.Obj? ==> s.blocks[b].obj.id in s.home && s.home[s.blocks[b].obj.id] == b)
    else Strongs(s, b) == 0 && Weaks(s, b) == 0
  }

  predicate Exists(s: State, o: int) {
    o in s.home && s.home[o] in s.blocks && s.blocks[s.home[o]].obj == Obj(o)
  }

  ghost predicate Blocks(s: State) {
    forall b {:trigger BlockOk(s, b)} :: BlockOk(s, b)
  }

  /** Each object has a block of its own, and exists until it is destroyed. */
  ghost predicate Objects(s: State) {
    && (forall o {:trigger Exists(s, o)} :: o in s.home ==> (Exists(s, o) <==> o !in s.destroyed))
    && (forall o :: o in s.home ==> s.home[o] in s.used)
    && (forall o, x :: o in s.home && x in s.home && s.home[o] == s.home[x] ==> o == x)
  }

  ghost predicate Logs(s: State) {
    && (forall o :: o in s.destroyed ==> o in s.home)
    && (forall b :: b in s.used <==> b in s.blocks || b in s.freed)
    && (forall b :: b in s.freed ==> b !in s.blocks)
    && Distinct(s.destroyed) && Distinct(s.freed)
  }

  ghost predicate Inv(s: State) {
    Blocks(s) && Objects(s) && Logs(s)
  }

  // ---------- the handle operations ----------

  datatype Op =
    | MakeNull(h: int)
    | Make(h: int, o: int, b: int)
    | Copy(h: int, src: int)
    | Assign(h: int, src: int)
    | AssignNull(h: int)
    | AssignRaw(h: int, o: int, b: int)
    | Drop(h: int)
    | MakeWeak(w: int, src: int)
    | CopyWeak(w: int, from: int)
    | AssignWeak(w: int, from: int)
    | EndWeak(w: int)
    | Promote(h: int, w: int)

  /** Handles are made under new names, blocks are newly allocated, and a raw pointer is a new object or the handle's
      own. */
  predicate Enabled(s: State, op: Op) {
    match op
    case MakeNull(h) => h !in s.strong
    case Make(h, o, b) => h !in s.strong && o !in s.home && b !in s.used
    case Copy(h, src) => h !in s.strong && src in s.strong
    case Assign(h, src) => h in s.strong && src in s.strong
    case AssignNull(h) => h in s.strong
    case AssignRaw(h, o, b) => h in s.strong && b !in s.used && (o !in s.home || OwnObject(s, h, o))
    case Drop(h) => h in s.strong
    case MakeWeak(w, src) => w !in s.weak && src in s.strong
    case CopyWeak(w, from) => w !in s.weak && from in s.weak
    case AssignWeak(w, from) => w in s.weak && from in s.weak
    case EndWeak(w) => w in s.weak
    case Promote(h, w) => h !in s.strong && w in s.weak
  }

  predicate OwnObject(s: State, h: int, o: int) {
    h in s.strong && s.strong[h].To? && s.strong[h].block in s.blocks && s.blocks[s.strong[h].block].obj == Obj(o)
  }

  ghost function Next(s: State, op: Op): State
    requires Inv(s) && Enabled(s, op)
  {
    match op
    case MakeNull(h) => s.(strong := s.strong[h := Null])
    case Make(h, o, b) => Wrap(s, b, o).(strong := s.strong[h := To(b)])
    case Copy(h, src) =>
      StrongIsLive(s, src);
      AddStrong(s, s.strong[src]).(strong := s.strong[h := s.strong[src]])
    case Assign(h, src) =>
      if s.strong[h] == s.strong[src] then s
      else
        StrongIsLive(s, src);
        StrongIsLive(s, h);
        DropStrong(AddStrong(s, s.strong[src]), s.strong[h]).(strong := s.strong[h := s.strong[src]])
    case AssignNull(h) =>
      StrongIsLive(s, h);
      DropStrong(s, s.strong[h]).(strong := s.strong[h := Null])
    case AssignRaw(h, o, b) =>
      if OwnObject(s, h, o) then s
      else
        StrongIsLive(s, h);
        Wrap(DropStrong(s, s.strong[h]), b, o).(strong := s.strong[h := To(b)])
    case Drop(h) =>
      StrongIsLive(s, h);
      DropStrong(s, s.strong[h]).(strong := s.strong - {h})
    case MakeWeak(w, src) =>
      StrongIsLive(s, src);
      AddWeak(s, s.strong[src]).(weak := s.weak[w := s.strong[src]])
    case CopyWeak(w, from) =>
      WeakIsLive(s, from);
      AddWeak(s, s.weak[from]).(weak := s.weak[w := s.weak[from]])
    case AssignWeak(w, from) =>
      if s.weak[w] == s.weak[from] then s
      else
        WeakIsLive(s, from);
        WeakIsLive(s, w);
        DropWeak(AddWeak(s, s.weak[from]), s.weak[w]).(weak := s.weak[w := s.weak[from]])
    case EndWeak(w) =>
      WeakIsLive(s, w);
      DropWeak(s, s.weak[w]).(weak := s.weak - {w})
    case Promote(h, w) =>
      WeakIsLive(s, w);
      var (s1, p) := PromoteWeak(s, s.weak[w]);
      s1.(strong := s.strong[h := p])
  }

  /** No handle dangles, so none of the assertions in the code can fail. */
  lemma StrongIsLive(s: State, h: int)
    requires Inv(s) && h in s.strong
    ensures CanDropStrong(s, s.strong[h])
  {
    if s.strong[h].To? {
      var b := s.strong[h].block;
      assert BlockOk(s, b);
      CountAt(s.strong, (p: Ptr) => p == To(b), h);
    }
  }

  lemma WeakIsLive(s: State, w: int)
    requires Inv(s) && w in s.weak
    ensures CanDropWeak(s, s.weak[w])
  {
    if s.weak[w].To? {
      var b := s.weak[w].block;
      assert BlockOk(s, b);
      CountAt(s.weak, (p: Ptr) => p == To(b), w);
    }
  }

  // ---------- counting handles ----------

  lemma StrongsAfter(s: State, s': State, h: int, p: Ptr, b: int)
    requires h in s.strong && s'.strong == s.strong[h := p] && s'.weak == s.weak
    ensures Strongs(s', b) == Strongs(s, b) - One(s.strong[h] == To(b)) + One(p == To(b)) && Weaks(s', b) == Weaks(s, b)
  {
    CountUpdate(s.strong, (x: Ptr) => x == To(b), h, p);
  }

  lemma WeaksAfter(s: State, s': State, w: int, p: Ptr, b: int)
    requires w in s.weak && s'.weak == s.weak[w := p] && s'.strong == s.strong
    ensures Weaks(s', b) == Weaks(s, b) - One(s.weak[w] == To(b)) + One(p == To(b)) && Strongs(s', b) == Strongs(s, b)
  {
    CountUpdate(s.weak, (x: Ptr) => x == To(b), w, p);
  }

  /** Blocks and logs are the same; handles count the same. */
  lemma SameCounts(s: State, s': State)
    requires Inv(s) && s' == s.(strong := s'.strong, weak := s'.weak)
    requires forall b :: Strongs(s', b) == Strongs(s, b) && Weaks(s', b) == Weaks(s, b)
    ensures Inv(s')
  {
    hide Strongs, Weaks;
    forall b {:trigger BlockOk(s', b)}
      ensures BlockOk(s', b)
    {
      assert BlockOk(s, b);
    }
    SameObjects(s, s');
  }

  /** Counts may change, but not which object a block holds. */
  lemma SameObjects(s: State, s': State)
    requires Objects(s) && s'.home == s.home && s'.used == s.used && s'.destroyed == s.destroyed && s'.blocks.Keys == s.blocks.Keys
    requires forall b :: b in s.blocks ==> s'.blocks[b].obj == s.blocks[b].obj
    ensures Objects(s')
  {
    forall o {:trigger Exists(s', o)} | o in s'.home
      ensures Exists(s', o) <==> o !in s'.destroyed
    {
      assert Exists(s, o) <==> Exists(s', o);
    }
  }

  lemma NullStrong(s: State, h: int)
    requires Inv(s) && h !in s.strong
    ensures Inv(s.(strong := s.strong[h := Null]))
  {
    var s' := s.(strong := s.strong[h := Null]);
    forall b
      ensures Strongs(s', b) == Strongs(s, b) && Weaks(s', b) == Weaks(s, b)
    {
      CountAdd(s.strong, (x: Ptr) => x == To(b), h, Null);
    }
    SameCounts(s, s');
  }

  lemma EraseStrong(s: State, h: int)
    requires Inv(s) && h in s.strong && s.strong[h].Null?
    ensures Inv(s.(strong := s.strong - {h}))
  {
    var s' := s.(strong := s.strong - {h});
    forall b
      ensures Strongs(s', b) == Strongs(s, b) && Weaks(s', b) == Weaks(s, b)
    {
      CountDrop(s.strong, (x: Ptr) => x == To(b), h);
    }
    SameCounts(s, s');
  }

  lemma NullWeak(s: State, w: int)
    requires Inv(s) && w !in s.weak
    ensures Inv(s.(weak := s.weak[w := Null]))
  {
    var s' := s.(weak := s.weak[w := Null]);
    forall b
      ensures Strongs(s', b) == Strongs(s, b) && Weaks(s', b) == Weaks(s, b)
    {
      CountAdd(s.weak, (x: Ptr) => x == To(b), w, Null);
    }
    SameCounts(s, s');
  }

  lemma EraseWeak(s: State, w: int)
    requires Inv(s) && w in s.weak && s.weak[w].Null?
    ensures Inv(s.(weak := s.weak - {w}))
  {
    var s' := s.(weak := s.weak - {w});
    forall b
      ensures Strongs(s', b) == Strongs(s, b) && Weaks(s', b) == Weaks(s, b)
    {
      CountDrop(s.weak, (x: Ptr) => x == To(b), w);
    }
    SameCounts(s, s');
  }

  // ---------- a null handle comes to point, a handle comes to be null ----------

  predicate Alive(s: State, p: Ptr) {
    p.To? ==> p.block in s.blocks && s.blocks[p.block].strong > 0
  }

  lemma PointStrong(s: State, h: int, p: Ptr)
    requires Inv(s) && h in s.strong && s.strong[h].Null? && Alive(s, p)
    ensures Inv(AddStrong(s, p).(strong := s.strong[h := p]))
  {
    hide Strongs, Weaks;
    var s' := AddStrong(s, p).(strong := s.strong[h := p]);
    if p.To? { assert BlockOk(s, p.block); }
    forall b {:trigger BlockOk(s', b)}
      ensures BlockOk(s', b)
    {
      assert BlockOk(s, b);
      StrongsAfter(s, s', h, p, b);
    }
    SameObjects(s, s');
  }

  lemma PointWeak(s: State, w: int, p: Ptr)
    requires Inv(s) && w in s.weak && s.weak[w].Null? && CanAddWeak(s, p)
    ensures Inv(AddWeak(s, p).(weak := s.weak[w := p]))
  {
    hide Strongs, Weaks;
    var s' := AddWeak(s, p).(weak := s.weak[w := p]);
    forall b {:trigger BlockOk(s', b)}
      ensures BlockOk(s', b)
    {
      assert BlockOk(s, b);
      WeaksAfter(s, s', w, p, b);
    }
    SameObjects(s, s');
  }

  lemma DistinctAdd(q: seq<int>, t: int)
    requires Distinct(q) && t !in q
    ensures Distinct(q + [t])
  {
  }

  lemma UnpointStrongBlocks(s: State, s': State, h: int)
    requires Blocks(s) && h in s.strong && CanDropStrong(s, s.strong[h])
    requires s' == DropStrong(s, s.strong[h]).(strong := s.strong[h := Null])
    ensures Blocks(s')
  {
    hide Strongs, Weaks;
    forall b {:trigger BlockOk(s', b)}
      ensures BlockOk(s', b)
    {
      assert BlockOk(s, b);
      StrongsAfter(s, s', h, Null, b);
    }
  }

  /** The object goes exactly with the last strong handle, and was there until then. */
  lemma DropStrongObjects(s: State, p: Ptr)
    requires Inv(s) && CanDropStrong(s, p)
    ensures Objects(DropStrong(s, p)) && Logs(DropStrong(s, p))
  {
    hide Strongs, Weaks;
    if p.To? {
      var s', o := DropStrong(s, p), s.blocks[p.block].obj.id;
      assert BlockOk(s, p.block);
      assert Exists(s, o);
      assert p.block in s.used && p.block !in s.freed;
      DistinctAdd(s.destroyed, o);
      DistinctAdd(s.freed, p.block);
      forall x {:trigger Exists(s', x)} | x in s'.home
        ensures Exists(s', x) <==> x !in s'.destroyed
      {
        assert Exists(s, x) <==> x !in s.destroyed;
      }
    }
  }

  lemma UnpointStrong(s: State, h: int)
    requires Inv(s) && h in s.strong
    ensures CanDropStrong(s, s.strong[h])
    ensures Inv(DropStrong(s, s.strong[h]).(strong := s.strong[h := Null]))
  {
    hide Blocks, DropStrong;
    StrongIsLive(s, h);
    var s1 := DropStrong(s, s.strong[h]);
    var s' := s1.(strong := s.strong[h := Null]);
    UnpointStrongBlocks(s, s', h);
    DropStrongObjects(s, s.strong[h]);
    SameObjects(s1, s');
  }

  lemma UnpointWeakBlocks(s: State, s': State, w: int)
    requires Blocks(s) && w in s.weak && CanDropWeak(s, s.weak[w])
    requires s' == DropWeak(s, s.weak[w]).(weak := s.weak[w := Null])
    ensures Blocks(s')
  {
    hide Strongs, Weaks;
    forall b {:trigger BlockOk(s', b)}
      ensures BlockOk(s', b)
    {
      assert BlockOk(s, b);
      WeaksAfter(s, s', w, Null, b);
    }
  }

  lemma DropWeakObjects(s: State, p: Ptr)
    requires Inv(s) && CanDropWeak(s, p)
    ensures Objects(DropWeak(s, p)) && Logs(DropWeak(s, p))
  {
    hide Strongs, Weaks;
    if p.To? {
      var s' := DropWeak(s, p);
      assert BlockOk(s, p.block);
      assert p.block in s.used && p.block !in s.freed;
      DistinctAdd(s.freed, p.block);
      forall x {:trigger Exists(s', x)} | x in s'.home
        ensures Exists(s', x) <==> x !in s'.destroyed
      {
        assert Exists(s, x) <==> x !in s.destroyed;
      }
    }
  }

  lemma UnpointWeak(s: State, w: int)
    requires Inv(s) && w in s.weak
    ensures CanDropWeak(s, s.weak[w])
    ensures Inv(DropWeak(s, s.weak[w]).(weak := s.weak[w := Null]))
  {
    hide Blocks, DropWeak;
    WeakIsLive(s, w);
    var s1 := DropWeak(s, s.weak[w]);
    var s' := s1.(weak := s.weak[w := Null]);
    UnpointWeakBlocks(s, s', w);
    DropWeakObjects(s, s.weak[w]);
    SameObjects(s1, s');
  }

  lemma WrapKeeps(s: State, h: int, b: int, o: int)
    requires Inv(s) && h in s.strong && s.strong[h].Null? && b !in s.used && o !in s.home
    ensures Inv(Wrap(s, b, o).(strong := s.strong[h := To(b)]))
  {
    hide Strongs, Weaks;
    var s' := Wrap(s, b, o).(strong := s.strong[h := To(b)]);
    forall x {:trigger BlockOk(s', x)}
      ensures BlockOk(s', x)
    {
      assert BlockOk(s, x);
      StrongsAfter(s, s', h, To(b), x);
    }
    forall x {:trigger Exists(s', x)} | x in s'.home
      ensures Exists(s', x) <==> x !in s'.destroyed
    {
      assert x in s.home ==> (Exists(s, x) <==> x !in s.destroyed);
    }
  }

  // ---------- every operation keeps the invariant ----------

  /** Taking the new reference before giving up the old one comes to the same as after, since they differ. */
  lemma AddThenDrop(s: State, p: Ptr, q: Ptr)
    requires CanDropStrong(s, p) && Alive(s, q) && p != q && Live(s, q)
    ensures CanDropStrong(AddStrong(s, q), p) && Live(DropStrong(s, p), q)
    ensures DropStrong(AddStrong(s, q), p) == AddStrong(DropStrong(s, p), q)
    ensures Alive(DropStrong(s, p), q)
  {
    if p.To? && q.To? {
      var x := AddStrong(s, q);
      assert x.blocks[p.block] == s.blocks[p.block];
      assert DropStrong(x, p).blocks == AddStrong(DropStrong(s, p), q).blocks;
    }
  }

  lemma AddThenDropWeak(s: State, p: Ptr, q: Ptr)
    requires CanDropWeak(s, p) && CanDropWeak(s, q) && p != q
    ensures CanDropWeak(AddWeak(s, q), p) && CanDropWeak(DropWeak(s, p), q)
    ensures DropWeak(AddWeak(s, q), p) == AddWeak(DropWeak(s, p), q)
  {
    if p.To? && q.To? {
      var x := AddWeak(s, q);
      assert x.blocks[p.block] == s.blocks[p.block];
      assert DropWeak(x, p).blocks == AddWeak(DropWeak(s, p), q).blocks;
    }
  }

  lemma AssignKeeps(s: State, h: int, src: int)
    requires Inv(s) && Enabled(s, Assign(h, src))
    ensures Inv(Next(s, Assign(h, src)))
  {
    hide Inv, BlockOk;
    if s.strong[h] != s.strong[src] {
      StrongIsLive(s, src);
      StrongIsLive(s, h);
      var p, q := s.strong[h], s.strong[src];
      AddThenDrop(s, p, q);
      UnpointStrong(s, h);
      var s1 := DropStrong(s, p).(strong := s.strong[h := Null]);
      PointStrong(s1, h, q);
      assert s1.strong[h := q] == s.strong[h := q];
      assert AddStrong(s1, q).(strong := s.strong[h := q]) == Next(s, Assign(h, src));
    }
  }

  lemma AssignWeakKeeps(s: State, w: int, from: int)
    requires Inv(s) && Enabled(s, AssignWeak(w, from))
    ensures Inv(Next(s, AssignWeak(w, from)))
  {
    hide Inv, BlockOk;
    if s.weak[w] != s.weak[from] {
      WeakIsLive(s, from);
      WeakIsLive(s, w);
      var p, q := s.weak[w], s.weak[from];
      AddThenDropWeak(s, p, q);
      UnpointWeak(s, w);
      var s1 := DropWeak(s, p).(weak := s.weak[w := Null]);
      PointWeak(s1, w, q);
      assert s1.weak[w := q] == s.weak[w := q];
      assert AddWeak(s1, q).(weak := s.weak[w := q]) == Next(s, AssignWeak(w, from));
    }
  }

  lemma NewStrongKeeps(s: State, op: Op)
    requires Inv(s) && Enabled(s, op) && (op.Make? || op.Copy? || op.Promote?)
    ensures Inv(Next(s, op))
  {
    hide Inv, BlockOk;
    NullStrong(s, op.h);
    var s1 := s.(strong := s.strong[op.h := Null]);
    match op
    case Make(h, o, b) =>
      WrapKeeps(s1, h, b, o);
      assert s1.strong[h := To(b)] == s.strong[h := To(b)];
    case Copy(h, src) =>
      StrongIsLive(s, src);
      var p := s.strong[src];
      PointStrong(s1, h, p);
      assert s1.strong[h := p] == s.strong[h := p];
    case Promote(h, w) =>
      PromoteKeeps(s, h, w);
  }

  lemma PromoteKeeps(s: State, h: int, w: int)
    requires Inv(s) && Enabled(s, Promote(h, w))
    ensures Inv(Next(s, Promote(h, w)))
  {
    hide Strongs, Weaks;
    NullStrong(s, h);
    WeakIsLive(s, w);
    var s1, p := s.(strong := s.strong[h := Null]), s.weak[w];
    if p.To? && s.blocks[p.block].strong > 0 {
      assert BlockOk(s, p.block);
      PointStrong(s1, h, p);
      assert s1.strong[h := p] == s.strong[h := p];
    }
  }

  lemma EndStrongKeeps(s: State, op: Op)
    requires Inv(s) && Enabled(s, op) && (op.AssignNull? || op.AssignRaw? || op.Drop?)
    ensures Inv(Next(s, op))
  {
    hide Inv, BlockOk;
    UnpointStrong(s, op.h);
    var s1 := DropStrong(s, s.strong[op.h]).(strong := s.strong[op.h := Null]);
    match op
    case AssignNull(_) =>
    case AssignRaw(h, o, b) =>
      if !OwnObject(s, h, o) {
        WrapKeeps(s1, h, b, o);
        assert s1.strong[h := To(b)] == s.strong[h := To(b)];
      }
    case Drop(h) =>
      EraseStrong(s1, h);
      assert s1.strong - {h} == s.strong - {h};
  }

  lemma NewWeakKeeps(s: State, op: Op)
    requires Inv(s) && Enabled(s, op) && (op.MakeWeak? || op.CopyWeak?)
    ensures Inv(Next(s, op))
  {
    hide Inv, BlockOk;
    NullWeak(s, op.w);
    var s1 := s.(weak := s.weak[op.w := Null]);
    if op.MakeWeak? { StrongIsLive(s, op.src); } else { WeakIsLive(s, op.from); }
    var p := if op.MakeWeak? then s.strong[op.src] else s.weak[op.from];
    PointWeak(s1, op.w, p);
    assert s1.weak[op.w := p] == s.weak[op.w := p];
  }

  lemma EndWeakKeeps(s: State, w: int)
    requires Inv(s) && Enabled(s, EndWeak(w))
    ensures Inv(Next(s, EndWeak(w)))
  {
    hide Inv, BlockOk;
    UnpointWeak(s, w);
    var s1 := DropWeak(s, s.weak[w]).(weak := s.weak[w := Null]);
    EraseWeak(s1, w);
    assert s1.weak - {w} == s.weak - {w};
  }

  lemma StepKeeps(s: State, op: Op)
    requires Inv(s) && Enabled(s, op)
    ensures Inv(Next(s, op))
  {
    hide Inv;
    match op
    case MakeNull(h) => NullStrong(s, h);
    case Make(_, _, _) => NewStrongKeeps(s, op);
    case Copy(_, _) => NewStrongKeeps(s, op);
    case Promote(_, _) => NewStrongKeeps(s, op);
    case Assign(h, src) => AssignKeeps(s, h, src);
    case AssignNull(_) => EndStrongKeeps(s, op);
    case AssignRaw(_, _, _) => EndStrongKeeps(s, op);
    case Drop(_) => EndStrongKeeps(s, op);
    case MakeWeak(_, _) => NewWeakKeeps(s, op);
    case CopyWeak(_, _) => NewWeakKeeps(s, op);
    case AssignWeak(w, from) => AssignWeakKeeps(s, w, from);
    case EndWeak(w) => EndWeakKeeps(s, w);
  }

  // ---------- what an operation leaves the handles with ----------

  /** The object is new to the handle, so the raw pointer gets a block of its own. */
  predicate IsNew(s: State, op: Op) {
    op.Make? || (op.AssignRaw? && !(op.h in s.strong && op.o in s.home && s.strong[op.h] == To(s.home[op.o])))
  }

  ghost function StrongAfter(s: State, op: Op): map<int, Ptr>
    requires Enabled(s, op)
  {
    match op
    case MakeNull(h) => s.strong[h := Null]
    case Make(h, _, b) => s.strong[h := To(b)]
    case Copy(h, src) => s.strong[h := s.strong[src]]
    case Assign(h, src) => s.strong[h := s.strong[src]]
    case AssignNull(h) => s.strong[h := Null]
    case AssignRaw(h, _, b) => if IsNew(s, op) then s.strong[h := To(b)] else s.strong
    case Drop(h) => s.strong - {h}
    case Promote(h, w) => s.strong[h := if exists g :: g in s.strong && s.strong[g] == s.weak[w] && s.weak[w].To? then s.weak[w] else Null]
    case _ => s.strong
  }

  function WeakAfter(s: State, op: Op): map<int, Ptr>
    requires Enabled(s, op)
  {
    match op
    case MakeWeak(w, src) => s.weak[w := s.strong[src]]
    case CopyWeak(w, from) => s.weak[w := s.weak[from]]
    case AssignWeak(w, from) => s.weak[w := s.weak[from]]
    case EndWeak(w) => s.weak - {w}
    case _ => s.weak
  }

  /** A copy or an assignment points where its source does, a promoted handle where the weak one does as long as a strong
      handle does too, a raw pointer becomes the object of a new block; every other handle points where it did. */
  lemma HandlesAfter(s: State, op: Op)
    requires Inv(s) && Enabled(s, op)
    ensures Next(s, op).strong == StrongAfter(s, op) && Next(s, op).weak == WeakAfter(s, op)
    ensures Next(s, op).home == if IsNew(s, op) then s.home[op.o := op.b] else s.home
  {
    hide Inv, AddStrong, DropStrong, AddWeak, DropWeak;
    match op
    case Promote(h, w) => if s.weak[w].To? { PromoteIff(s, h, w); }
    case AssignRaw(h, o, b) => OwnIsHome(s, h, o);
    case _ =>
  }

  /** A handle to an object is a handle to its block. */
  lemma OwnIsHome(s: State, h: int, o: int)
    requires Inv(s) && h in s.strong
    ensures OwnObject(s, h, o) <==> o in s.home && s.strong[h] == To(s.home[o])
  {
    hide Strongs, Weaks;
    StrongIsLive(s, h);
    if s.strong[h].To? {
      var b := s.strong[h].block;
      assert BlockOk(s, b);
      if o in s.home && s.home[o] == b {
        assert s.blocks[b].obj.id in s.home && s.home[s.blocks[b].obj.id] == b;
      }
    }
  }

  // ---------- every sequence of operations ----------

  ghost function Run(s: State, ops: seq<Op>): State
    requires Inv(s)
    decreases |ops|
  {
    if ops == [] then s
    else if !Enabled(s, ops[0]) then Run(s, ops[1..])
    else
      StepKeeps(s, ops[0]);
      Run(Next(s, ops[0]), ops[1..])
  }

  lemma {:induction false} RunKeeps(s: State, ops: seq<Op>)
    requires Inv(s)
    ensures Inv(Run(s, ops))
    decreases |ops|
  {
    hide Inv, Enabled, Next;
    if ops != [] {
      if Enabled(s, ops[0]) {
        StepKeeps(s, ops[0]);
        RunKeeps(Next(s, ops[0]), ops[1..]);
      } else {
        RunKeeps(s, ops[1..]);
      }
    }
  }

  function Empty(): State {
    State(map[], map[], map[], map[], {}, [], [])
  }

  lemma EmptyInv()
    ensures Inv(Empty())
  {
    var s := Empty();
    forall b {:trigger BlockOk(s, b)}
      ensures BlockOk(s, b)
    {
      CountSome(s.strong, (p: Ptr) => p == To(b));
      CountSome(s.weak, (p: Ptr) => p == To(b));
    }
  }

  /** After any sequence of operations: the counts are the numbers of handles; an object has been destroyed exactly when
      it has no strong handle left, and then once; a block has been freed exactly when no handle is left, and then once. */
  lemma CountsAreHandles(ops: seq<Op>, o: int, b: int)
    ensures Inv(Empty())
    ensures var s := Run(Empty(), ops);
            && (b in s.blocks ==> s.blocks[b].strong == Strongs(s, b) && s.blocks[b].weak == Weaks(s, b))
            && (o in s.home ==> (o in s.destroyed <==> Strongs(s, s.home[o]) == 0))
            && (b in s.used ==> (b in s.freed <==> Strongs(s, b) == 0 && Weaks(s, b) == 0))
            && Distinct(s.destroyed) && Distinct(s.freed)
  {
    EmptyInv();
    RunKeeps(Empty(), ops);
    hide Run, Strongs, Weaks;
    var s := Run(Empty(), ops);
    assert BlockOk(s, b);
    if o in s.home {
      assert BlockOk(s, s.home[o]);
      assert Exists(s, o) <==> o !in s.destroyed;
    }
  }

  /** promote gives a handle to the object exactly when a strong handle to it exists. */
  lemma PromoteIff(s: State, h: int, w: int)
    requires Inv(s) && Enabled(s, Promote(h, w)) && s.weak[w].To?
    ensures Next(s, Promote(h, w)).strong[h] == (if Strongs(s, s.weak[w].block) > 0 then s.weak[w] else Null)
    ensures (exists g :: g in s.strong && s.strong[g] == s.weak[w]) <==> Next(s, Promote(h, w)).strong[h].To?
  {
    var b := s.weak[w].block;
    WeakIsLive(s, w);
    assert BlockOk(s, b);
    CountSome(s.strong, (p: Ptr) => p == To(b));
  }

  // ---------- the count block itself ----------

  class Intermediate {
    var obj: Obj
    var strong: nat
    var weak: nat

    ghost function Value(): Block
      reads this
    {
      Block(obj, strong, weak)
    }

    constructor (o: int)
      ensures Value() == Block(Obj(o), 1, 0)
    {
      obj, strong, weak := Obj(o), 1, 0;
    }

    method AddStrong()
      modifies this
      ensures Value() == old(Value()).(strong := old(strong) + One(old(obj).Obj?))
    {
      if obj.Obj? { strong := strong + 1; }
    }

    method DropStrong() returns (deleteObj: bool, deleteBlock: bool)
      requires strong > 0 && obj.Obj?
      modifies this
      ensures Value() == OneFewer(old(Value()))
      ensures deleteObj <==> strong == 0
      ensures deleteBlock <==> strong == 0 && weak == 0
    {
      strong := strong - 1;
      deleteObj, deleteBlock := false, false;
      if strong == 0 {
        deleteObj := true;
        if weak == 0 { deleteBlock := true; }
      }
      if deleteObj { obj := NoObj; }
    }

    method DropWeak() returns (deleteBlock: bool)
      requires weak > 0
      modifies this
      ensures Value() == old(Value()).(weak := old(weak) - 1)
      ensures deleteBlock <==> strong == 0 && weak == 0
    {
      weak := weak - 1;
      deleteBlock := weak == 0 && strong == 0;
    }

    method Promote() returns (ok: bool)
      requires weak > 0
      modifies this
      ensures ok <==> old(strong) > 0
      ensures Value() == old(Value()).(strong := old(strong) + One(ok))
    {
      if strong > 0 {
        strong := strong + 1;
        return true;
      }
      return false;
    }
  }
}
