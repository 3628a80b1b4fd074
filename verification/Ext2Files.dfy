/** The file behind an inode: the tree of direct and indirect blocks of kernel/ext2.cc, and the byte sequence it stands
    for.  Block number 0 is a hole, at any level. */
module Ext2Files {
  import opened Basics
  import opened Bytes

  /** The fields of an inode that matter for its contents. */
  datatype Inode = Inode(mode: nat, size: nat, direct: seq<nat>, ind1: nat, ind2: nat, ind3: nat)

  /** A disk and the block size of the file system on it. */
  datatype Volume = Volume(disk: seq<int>, bs: nat)

  predicate VolumeOk(v: Volume) {
    && AreBytes(v.disk) && |v.disk| < U32 && |v.disk| % 512 == 0
    && 1024 <= v.bs <= 65536 && v.bs % 512 == 0
  }

  function Refs(v: Volume): nat {
    v.bs / 4
  }

  function Le32(disk: seq<int>, at: nat): (r: nat)
    requires AreBytes(disk) && at + 4 <= |disk|
  {
    ByteOfWord(disk[at], disk[at + 1], disk[at + 2], disk[at + 3]);
    Word(disk[at], disk[at + 1], disk[at + 2], disk[at + 3])
  }

  /** A hole or a block on the disk. */
  predicate InDisk(v: Volume, b: nat) {
    b == 0 || (b + 1) * v.bs <= |v.disk|
  }

  // ---------- the reference: the list of blocks ----------

  function Concat(ss: seq<seq<nat>>): seq<nat> {
    if ss == [] then [] else ss[0] + Concat(ss[1..])
  }

  /** Entry i of the table in block b; a hole has holes for entries. */
  function Ref(v: Volume, b: nat, i: nat): nat
    requires VolumeOk(v) && i < Refs(v)
  {
    if b == 0 || !InDisk(v, b) then 0
    else
      InBlock(v, b, i);
      Le32(v.disk, b * v.bs + 4 * i)
  }

  lemma InBlock(v: Volume, b: nat, i: nat)
    requires i < Refs(v) && (b + 1) * v.bs <= |v.disk|
    ensures b * v.bs + 4 * i + 4 <= |v.disk|
  {
    assert (b + 1) * v.bs == b * v.bs + v.bs;
  }

  /** The data blocks under block b, `level` tables deep, in order. */
  function Leaves(v: Volume, level: nat, b: nat): seq<nat>
    requires VolumeOk(v)
    decreases level
  {
    if level == 0 then [b]
    else Concat(seq(Refs(v), i requires 0 <= i < Refs(v) => Leaves(v, level - 1, Ref(v, b, i))))
  }

  /** All data blocks of an inode in file order. */
  function Blocks(v: Volume, node: Inode): seq<nat>
    requires VolumeOk(v)
  {
    node.direct + Leaves(v, 1, node.ind1) + Leaves(v, 2, node.ind2) + Leaves(v, 3, node.ind3)
  }

  // ---------- the code: where block lbn is ----------

  /** One level of indirection. */
  function Follow(v: Volume, b: nat, i: nat): nat
    requires VolumeOk(v)
  {
    if i < Refs(v) then Ref(v, b, i) else 0
  }

  function Square(r: nat): nat {
    r * r
  }

  /** Quotient and remainder, with what determines them. */
  function Div(a: nat, n: nat): (q: nat)
    requires n > 0
    ensures a == q * n + Mod(a, n)
  {
    a / n
  }

  function Mod(a: nat, n: nat): (m: nat)
    requires n > 0
    ensures m < n
  {
    a % n
  }

  /** The block number read_block computes. */
  function Physical(v: Volume, node: Inode, lbn: nat): nat
    requires VolumeOk(v) && |node.direct| == 12
  {
    var r := Refs(v);
    var rr := Square(r);
    if lbn < 12 then node.direct[lbn]
    else if lbn - 12 < r then Follow(v, node.ind1, lbn - 12)
    else if lbn - 12 - r < rr then
      var l := lbn - 12 - r;
      Follow(v, Follow(v, node.ind2, Div(l, r)), Mod(l, r))
    else
      var l := lbn - 12 - r - rr;
      Follow(v, Follow(v, Follow(v, node.ind3, Div(Div(l, r), r)), Mod(Div(l, r), r)), Mod(l, r))
  }

  // ---------- they agree ----------

  lemma {:induction false} ConcatAt(ss: seq<seq<nat>>, n: nat, q: nat, m: nat)
    requires (forall i :: 0 <= i < |ss| ==> |ss[i]| == n) && q < |ss| && m < n
    ensures |Concat(ss)| == |ss| * n && 0 <= q * n + m < |ss| * n && Concat(ss)[q * n + m] == ss[q][m]
    decreases |ss|
  {
    ConcatLength(ss, n);
    Within(q, |ss|, n, m);
    if q > 0 {
      ConcatAt(ss[1..], n, q - 1, m);
      assert q * n == (q - 1) * n + n;
    }
  }

  lemma Within(q: nat, k: nat, n: nat, m: nat)
    requires q < k && m < n
    ensures 0 <= q * n + m < k * n
  {
    MulMono(q + 1, k, n);
    assert (q + 1) * n == q * n + n;
  }

  lemma {:induction false} MulMono(a: nat, b: nat, n: nat)
    requires a <= b
    ensures 0 <= a * n <= b * n
    decreases b
  {
    if a < b {
      MulMono(a, b - 1, n);
      assert b * n == (b - 1) * n + n;
    } else if a > 0 {
      MulMono(a - 1, b - 1, n);
      assert a * n == (a - 1) * n + n;
    }
  }

  lemma {:induction false} ConcatLength(ss: seq<seq<nat>>, n: nat)
    requires forall i :: 0 <= i < |ss| ==> |ss[i]| == n
    ensures |Concat(ss)| == |ss| * n
    decreases |ss|
  {
    if ss != [] {
      ConcatLength(ss[1..], n);
      assert |ss| * n == n + (|ss| - 1) * n;
    }
  }

  function Power(r: nat, level: nat): nat {
    if level == 0 then 1 else r * Power(r, level - 1)
  }

  lemma {:induction false} LeavesLength(v: Volume, level: nat, b: nat)
    requires VolumeOk(v)
    ensures |Leaves(v, level, b)| == Power(Refs(v), level)
    decreases level
  {
    if level > 0 {
      var parts := seq(Refs(v), i requires 0 <= i < Refs(v) => Leaves(v, level - 1, Ref(v, b, i)));
      forall i | 0 <= i < |parts|
        ensures |parts[i]| == Power(Refs(v), level - 1)
      {
        LeavesLength(v, level - 1, Ref(v, b, i));
      }
      ConcatLength(parts, Power(Refs(v), level - 1));
    }
  }

  /** Leaf q * r^(level-1) + m is leaf m under entry q. */
  lemma LeavesAt(v: Volume, level: nat, b: nat, q: nat, m: nat)
    requires VolumeOk(v) && level > 0 && q < Refs(v) && m < Power(Refs(v), level - 1)
    ensures |Leaves(v, level - 1, Ref(v, b, q))| == Power(Refs(v), level - 1)
    ensures |Leaves(v, level, b)| == Refs(v) * Power(Refs(v), level - 1)
    ensures 0 <= q * Power(Refs(v), level - 1) + m < |Leaves(v, level, b)|
    ensures Leaves(v, level, b)[q * Power(Refs(v), level - 1) + m] == Leaves(v, level - 1, Ref(v, b, q))[m]
  {
    var parts := seq(Refs(v), i requires 0 <= i < Refs(v) => Leaves(v, level - 1, Ref(v, b, i)));
    forall i | 0 <= i < |parts|
      ensures |parts[i]| == Power(Refs(v), level - 1)
    {
      LeavesLength(v, level - 1, Ref(v, b, i));
    }
    ConcatAt(parts, Power(Refs(v), level - 1), q, m);
  }

  lemma LessDiv(a: nat, n: nat, k: nat)
    requires n > 0 && a < k * n
    ensures Div(a, n) < k
  {
    if Div(a, n) >= k { MulMono(k, Div(a, n), n); }
  }

  lemma Powers(r: nat)
    ensures Power(r, 0) == 1 && Power(r, 1) == r && Power(r, 2) == Square(r) && Power(r, 3) == r * Square(r)
  {
    assert Power(r, 1) == r * Power(r, 0);
    assert Power(r, 2) == r * Power(r, 1);
    assert Power(r, 3) == r * Power(r, 2);
  }

  lemma OneLevel(v: Volume, b: nat, i: nat)
    requires VolumeOk(v) && i < Refs(v)
    ensures i < |Leaves(v, 1, b)| == Refs(v) && Leaves(v, 1, b)[i] == Follow(v, b, i)
  {
    Powers(Refs(v));
    LeavesAt(v, 1, b, i, 0);
    assert Leaves(v, 0, Ref(v, b, i)) == [Ref(v, b, i)];
    assert i * Power(Refs(v), 0) + 0 == i;
    assert Refs(v) * Power(Refs(v), 0) == Refs(v);
  }

  lemma TwoLevels(v: Volume, b: nat, d1: nat, d0: nat)
    requires VolumeOk(v) && d1 < Refs(v) && d0 < Refs(v)
    ensures 0 <= d1 * Refs(v) + d0 < |Leaves(v, 2, b)| == Square(Refs(v))
    ensures Leaves(v, 2, b)[d1 * Refs(v) + d0] == Follow(v, Follow(v, b, d1), d0)
  {
    Powers(Refs(v));
    LeavesAt(v, 2, b, d1, d0);
    LeavesLength(v, 2, b);
    OneLevel(v, Ref(v, b, d1), d0);
  }

  lemma ThreeLevels(v: Volume, b: nat, d2: nat, d1: nat, d0: nat)
    requires VolumeOk(v) && d2 < Refs(v) && d1 < Refs(v) && d0 < Refs(v)
    ensures 0 <= d2 * Square(Refs(v)) + (d1 * Refs(v) + d0) < |Leaves(v, 3, b)| == Refs(v) * Square(Refs(v))
    ensures Leaves(v, 3, b)[d2 * Square(Refs(v)) + (d1 * Refs(v) + d0)] == Follow(v, Follow(v, Follow(v, b, d2), d1), d0)
  {
    Powers(Refs(v));
    TwoLevels(v, Ref(v, b, d2), d1, d0);
    LeavesAt(v, 3, b, d2, d1 * Refs(v) + d0);
    LeavesLength(v, 3, b);
  }

  /** The assertions in the triple-indirect branch of read_block, and why they hold. */
  lemma Digits(l: nat, r: nat)
    requires r > 0 && l < r * Square(r)
    ensures var t := Div(l, r);
            && Div(t, r) < r && t < Square(r)
            && l == (Div(t, r) * r + Mod(t, r)) * r + Mod(l, r)
            && l == Div(t, r) * Square(r) + (Mod(t, r) * r + Mod(l, r))
  {
    hide Div, Mod, Square;
    Commute(r, Square(r));
    LessDiv(l, r, Square(r));
    var t := Div(l, r);
    SquareIs(r);
    LessDiv(t, r, r);
    Distribute(Div(t, r), Mod(t, r), r);
  }

  lemma Commute(a: nat, b: nat)
    ensures a * b == b * a
  {
  }

  lemma SquareIs(r: nat)
    ensures Square(r) == r * r
  {
  }

  lemma Distribute(a: nat, b: nat, r: nat)
    ensures (a * r + b) * r == a * Square(r) + b * r
  {
    assert (a * r + b) * r == (a * r) * r + b * r;
    assert (a * r) * r == a * (r * r);
  }

  /** Number of blocks an inode can reach. */
  function Reach(v: Volume): nat {
    12 + Refs(v) + Square(Refs(v)) + Refs(v) * Square(Refs(v))
  }

  /** read_block finds, for every logical block, the block the indirection tree lists there. */
  lemma PhysicalIsListed(v: Volume, node: Inode, lbn: nat)
    requires VolumeOk(v) && |node.direct| == 12 && lbn < Reach(v)
    ensures |Blocks(v, node)| == Reach(v) && Blocks(v, node)[lbn] == Physical(v, node, lbn)
  {
    hide Leaves, Follow;
    var r := Refs(v);
    var rr := Square(r);
    OneLevel(v, node.ind1, 0);
    TwoLevels(v, node.ind2, 0, 0);
    ThreeLevels(v, node.ind3, 0, 0, 0);
    var a, b, c := Leaves(v, 1, node.ind1), Leaves(v, 2, node.ind2), Leaves(v, 3, node.ind3);
    assert Blocks(v, node) == node.direct + a + b + c;
    if 12 <= lbn < 12 + r {
      OneLevel(v, node.ind1, lbn - 12);
    } else if 12 + r <= lbn < 12 + r + rr {
      var l := lbn - 12 - r;
      LessDiv(l, r, r);
      TwoLevels(v, node.ind2, Div(l, r), Mod(l, r));
    } else if 12 + r + rr <= lbn {
      var l := lbn - 12 - r - rr;
      Digits(l, r);
      ThreeLevels(v, node.ind3, Div(Div(l, r), r), Mod(Div(l, r), r), Mod(l, r));
    }
  }

  // ---------- the file as bytes ----------

  /** Logical block lbn as read_block delivers it. */
  function BlockBytes(v: Volume, b: nat): (r: seq<int>)
    requires VolumeOk(v) && InDisk(v, b)
    ensures |r| == v.bs
  {
    if b == 0 then seq(v.bs, i => 0)
    else
      assert (b + 1) * v.bs == b * v.bs + v.bs;
      v.disk[b * v.bs..(b + 1) * v.bs]
  }

  /** Every block on the way to logical block lbn is on the disk. */
  predicate WayOk(v: Volume, node: Inode, lbn: nat)
    requires VolumeOk(v) && |node.direct| == 12
  {
    var r := Refs(v);
    var rr := Square(r);
    && InDisk(v, Physical(v, node, lbn))
    && (if lbn < 12 then true
        else if lbn - 12 < r then InDisk(v, node.ind1)
        else if lbn - 12 - r < rr then
          InDisk(v, node.ind2) && InDisk(v, Follow(v, node.ind2, Div(lbn - 12 - r, r)))
        else
          var t := Div(lbn - 12 - r - rr, r);
          && InDisk(v, node.ind3) && InDisk(v, Follow(v, node.ind3, Div(t, r)))
          && InDisk(v, Follow(v, Follow(v, node.ind3, Div(t, r)), Mod(t, r))))
  }

  /** An inode whose blocks are on the disk. */
  ghost predicate NodeOk(v: Volume, node: Inode) {
    && VolumeOk(v) && |node.direct| == 12 && node.size < U32
    && (forall lbn: nat {:trigger WayOk(v, node, lbn)} :: lbn * v.bs < node.size ==> WayOk(v, node, lbn))
  }

  /** A file of less than 4 GB never needs more blocks than an inode reaches. */
  lemma FileFits(v: Volume, size: nat, lbn: nat)
    requires VolumeOk(v) && size < U32 && lbn * v.bs < size
    ensures lbn < Reach(v)
  {
    MulMono(1024, v.bs, lbn);
    var r := Refs(v);
    MulMono(256, r, 256);
    MulMono(256, r, r);
    MulMono(65536, Square(r), r);
    MulMono(256, r, 65536);
    assert lbn < 0x40_0000;
    assert r * Square(r) >= 0x100_0000;
  }

  /** Byte i of the file the tree stands for. */
  ghost function FileByte(v: Volume, node: Inode, i: nat): int
    requires NodeOk(v, node) && i < node.size
  {
    var lbn := Div(i, v.bs);
    FileFits(v, node.size, lbn);
    PhysicalIsListed(v, node, lbn);
    var b := Blocks(v, node)[lbn];
    assert WayOk(v, node, lbn);
    BlockBytes(v, b)[Mod(i, v.bs)]
  }

  ghost function FileBytes(v: Volume, node: Inode): (r: seq<int>)
    requires NodeOk(v, node)
    ensures |r| == node.size
  {
    seq(node.size, i requires 0 <= i < node.size => FileByte(v, node, i))
  }

  // ---------- what the bytes are ----------

  lemma DivIs(q: nat, m: nat, n: nat)
    requires m < n
    ensures Div(q * n + m, n) == q && Mod(q * n + m, n) == m
  {
    var a := q * n + m;
    var p, k := Div(a, n), Mod(a, n);
    assert (q + 1) * n == q * n + n && (p + 1) * n == p * n + n;
    if q < p { MulMono(q + 1, p, n); } else if p < q { MulMono(p + 1, q, n); }
  }

  /** Byte m of logical block q is 0 where the tree lists block 0, and otherwise byte m of the listed block on the disk. */
  lemma FileByteIs(v: Volume, node: Inode, q: nat, m: nat)
    requires NodeOk(v, node) && m < v.bs && q * v.bs + m < node.size
    ensures q < |Blocks(v, node)|
    ensures Blocks(v, node)[q] == 0 ==> FileBytes(v, node)[q * v.bs + m] == 0
    ensures Blocks(v, node)[q] != 0 ==>
              && 0 <= Blocks(v, node)[q] * v.bs + m < |v.disk|
              && FileBytes(v, node)[q * v.bs + m] == v.disk[Blocks(v, node)[q] * v.bs + m]
  {
    hide Blocks, Physical;
    DivIs(q, m, v.bs);
    FileFits(v, node.size, q);
    PhysicalIsListed(v, node, q);
    assert WayOk(v, node, q);
    BlockByteIs(v, Blocks(v, node)[q], m);
  }

  lemma BlockByteIs(v: Volume, b: nat, m: nat)
    requires VolumeOk(v) && InDisk(v, b) && m < v.bs
    ensures b == 0 ==> BlockBytes(v, b)[m] == 0
    ensures b != 0 ==> 0 <= b * v.bs + m < |v.disk| && BlockBytes(v, b)[m] == v.disk[b * v.bs + m]
  {
    assert (b + 1) * v.bs == b * v.bs + v.bs;
  }

  /** The list of blocks, place by place: twelve direct blocks, then what the tables one, two and three deep list. */
  lemma BlocksAre(v: Volume, node: Inode, i: nat, j: nat, k: nat)
    requires VolumeOk(v) && |node.direct| == 12 && i < Refs(v) && j < Refs(v) && k < Refs(v)
    ensures |Blocks(v, node)| == Reach(v) && (i < 12 ==> Blocks(v, node)[i] == node.direct[i])
    ensures var b, r := Blocks(v, node), Refs(v);
            && b[12 + i] == Ref(v, node.ind1, i)
            && 0 <= 12 + r + (i * r + j) < |b| && b[12 + r + (i * r + j)] == Ref(v, Ref(v, node.ind2, i), j)
            && 0 <= 12 + r + Square(r) + (i * Square(r) + (j * r + k)) < |b|
            && b[12 + r + Square(r) + (i * Square(r) + (j * r + k))] == Ref(v, Ref(v, Ref(v, node.ind3, i), j), k)
  {
    hide Leaves;
    OneLevel(v, node.ind1, i);
    TwoLevels(v, node.ind2, i, j);
    ThreeLevels(v, node.ind3, i, j, k);
    var a, b, c := Leaves(v, 1, node.ind1), Leaves(v, 2, node.ind2), Leaves(v, 3, node.ind3);
    assert Blocks(v, node) == node.direct + a + b + c;
  }

  /** A table numbered 0 lists nothing but holes, however many levels deep. */
  lemma {:induction false} HoleBelow(v: Volume, level: nat, k: nat)
    requires VolumeOk(v) && k < |Leaves(v, level, 0)|
    ensures Leaves(v, level, 0)[k] == 0
    decreases level
  {
    if level > 0 {
      var n := Power(Refs(v), level - 1);
      LeavesLength(v, level, 0);
      var q, m := Div(k, n), Mod(k, n);
      LessDiv(k, n, Refs(v));
      LeavesAt(v, level, 0, q, m);
      HoleBelow(v, level - 1, m);
    }
  }
}
