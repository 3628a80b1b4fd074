/** find over the bytes of the disk: every node it looks at comes through get_node, every name through find_one, every link
    through get_symbol, and the result is that of the recursive resolution in the file system the disk stands for. */
module DiskLookups {
  import opened Basics
  import opened Bytes
  import opened BufferCaches
  import opened Ext2Files
  import opened FileReads
  import opened Directories
  import opened Paths
  import L = Lookups

  // ---------- the file system on the disk ----------

  predicate IsDir(n: Inode) {
    n.mode / 0x1000 == 4
  }

  predicate IsLink(n: Inode) {
    n.mode / 0x1000 == 0xA
  }

  /** A link whose text is kept in the inode itself. */
  predicate ShortLink(n: Inode) {
    IsLink(n) && n.size < 60
  }

  /** The fifteen block words of an inode. */
  function BlockWords(n: Inode): seq<nat> {
    n.direct + [n.ind1, n.ind2, n.ind3]
  }

  predicate WordsOk(n: Inode) {
    |n.direct| == 12 && forall i :: 0 <= i < 15 ==> BlockWords(n)[i] < U32
  }

  /** The sixty bytes of those words. */
  function RawBytes(n: Inode): (r: seq<int>)
    requires WordsOk(n)
    ensures |r| == 60
  {
    seq(60, j requires 0 <= j < 60 => ByteOf(BlockWords(n)[j / 4], j % 4))
  }

  lemma RawAreBytes(n: Inode)
    requires WordsOk(n)
    ensures AreBytes(RawBytes(n))
  {
    forall j | 0 <= j < 60
      ensures IsByte(RawBytes(n)[j])
    {
      WordByte(BlockWords(n)[j / 4], j % 4);
    }
  }

  lemma {:induction false} WordByte(w: int, k: nat)
    ensures IsByte(ByteOf(w, k))
    decreases k
  {
    if k > 0 { WordByte(w / 0x100, k - 1); }
  }

  /** The text of a link. */
  ghost function Target(v: Volume, n: Inode): (r: seq<int>)
    requires WordsOk(n) && (ShortLink(n) || NodeOk(v, n))
    ensures AreBytes(r)
  {
    if n.size < 60 then
      RawAreBytes(n);
      RawBytes(n)[..n.size]
    else
      FileAreBytes(v, n);
      FileBytes(v, n)
  }

  function Text(bytes: seq<int>): string
    requires AreBytes(bytes)
  {
    seq(|bytes|, i requires 0 <= i < |bytes| => bytes[i] as char)
  }

  predicate EntriesIn(g: Geometry, entries: seq<L.Entry>) {
    forall i :: 0 <= i < |entries| ==> entries[i].inode <= g.nodes
  }

  /** An inode whose blocks are on the disk, with well-formed contents if it is a directory or a link. */
  ghost predicate InodeOk(v: Volume, g: Geometry, n: Inode) {
    && WordsOk(n) && (ShortLink(n) || NodeOk(v, n))
    && (IsDir(n) ==> DirIs(v, n) && EntriesIn(g, EntriesOf(v, n)))
    && (IsLink(n) ==> NoZero(Target(v, n)))
  }

  predicate IsNumber(g: Geometry, k: nat) {
    0 < k <= g.nodes
  }

  ghost predicate DiskOk(v: Volume, g: Geometry) {
    && GeometryOk(v, g) && g.nodes >= 2
    && (forall k: nat {:trigger IsNumber(g, k)} :: IsNumber(g, k) ==> InodeOk(v, g, NodeOf(v, g, k).inode))
  }

  ghost function KindOf(v: Volume, g: Geometry, n: Inode): L.Node
    requires InodeOk(v, g, n)
  {
    if IsDir(n) then L.DirNode(EntriesOf(v, n)) else if IsLink(n) then L.LinkNode(Text(Target(v, n))) else L.FileNode
  }

  /** The file system the bytes of the disk stand for; its root is inode 2. */
  ghost function FsOf(v: Volume, g: Geometry): (fs: L.Fs)
    requires DiskOk(v, g)
    ensures fs.root == 2
  {
    L.Fs(map k: nat | 0 < k <= g.nodes && IsNumber(g, k) :: KindOf(v, g, NodeOf(v, g, k).inode), 2)
  }

  lemma FsOfOk(v: Volume, g: Geometry)
    requires DiskOk(v, g)
    ensures L.FsOk(FsOf(v, g))
  {
    var fs := FsOf(v, g);
    assert IsNumber(g, 2);
    forall k | k in fs.nodes && fs.nodes[k].DirNode?
      ensures L.EntriesOk(fs, fs.nodes[k].entries)
    {
      var es := fs.nodes[k].entries;
      assert IsNumber(g, k);
      forall i | 0 <= i < |es|
        ensures es[i].inode == 0 || es[i].inode in fs.nodes
      {
        assert IsNumber(g, es[i].inode) || es[i].inode == 0;
      }
    }
  }

  lemma NodeAt(v: Volume, g: Geometry, k: nat)
    requires DiskOk(v, g)
    ensures k in FsOf(v, g).nodes <==> IsNumber(g, k)
    ensures IsNumber(g, k) ==> NodeOf(v, g, k).Just? && InodeOk(v, g, NodeOf(v, g, k).inode) && FsOf(v, g).nodes[k] == KindOf(v, g, NodeOf(v, g, k).inode)
  {
    assert IsNumber(g, k) ==> InodeOk(v, g, NodeOf(v, g, k).inode);
  }

  // ---------- names without zeros ----------

  predicate NoNul(s: string) {
    forall i :: 0 <= i < |s| ==> s[i] != '\0'
  }

  lemma {:induction false} PartsNoNul(cur: string, s: string)
    requires NoNul(cur) && NoNul(s)
    ensures forall p :: p in SplitFrom(cur, s) ==> NoNul(p)
    decreases |s|
  {
    if s != [] {
      if s[0] == '/' { PartsNoNul([], s[1..]); } else { PartsNoNul(cur + [s[0]], s[1..]); }
    }
  }

  lemma ComponentsNoNul(path: string)
    requires NoNul(path)
    ensures forall p :: p in Components(path) ==> NoNul(p)
  {
    PartsNoNul([], path);
    NonEmptyParts(Split(path));
  }

  lemma AsciiNoZero(s: string)
    requires NoNul(s)
    ensures NoZero(L.Ascii(s))
  {
    forall i | 0 <= i < |s|
      ensures L.Ascii(s)[i] != 0
    {
      assert s[i] != '\0';
    }
  }

  lemma TextNoNul(bytes: seq<int>)
    requires AreBytes(bytes) && NoZero(bytes)
    ensures NoNul(Text(bytes))
  {
    forall i | 0 <= i < |bytes|
      ensures Text(bytes)[i] != '\0'
    {
      assert bytes[i] != 0;
    }
  }

  // ---------- reading it ----------

  /** get_symbol: a short text from the inode, a long one from the file. */
  method GetSymbol(finder: Finder, n: Inode) returns (text: string)
    requires finder.reader.Valid() && IsLink(n) && WordsOk(n) && (ShortLink(n) || NodeOk(finder.reader.v, n))
    modifies finder.reader.cache, finder.reader.cache.indices, finder.reader.cache.nodes
    ensures finder.reader.Valid() && fresh(finder.reader.cache.nodes - old(finder.reader.cache.nodes))
    ensures text == Text(Target(finder.reader.v, n))
  {
    hide Reader.Valid, NodeOk;
    RawAreBytes(n);
    if n.size < 60 {
      text := Text(RawBytes(n)[..n.size]);
    } else {
      hide FileBytes, VolumeOk, Overwrite;
      NodeIsIo(finder.reader.v, n);
      FileAreBytes(finder.reader.v, n);
      var buffer := new int[n.size];
      ghost var was := buffer[..];
      var cnt := finder.reader.ReadAll(NodeIO(n), 0, n.size, buffer, 0);
      ghost var data := FileBytes(finder.reader.v, n);
      assert cnt == n.size && data[0..n.size] == data;
      WholeBuffer(was, data);
      text := Text(buffer[..]);
    }
  }

  /** One name in one directory. */
  method FindChild(finder: Finder, g: Geometry, node: nat, inode: Inode, token: string) returns (r: L.Result)
    requires finder.reader.Valid() && DiskOk(finder.reader.v, g) && IsNumber(g, node) && NodeOf(finder.reader.v, g, node) == Just(inode) && NoNul(token)
    requires L.FsOk(FsOf(finder.reader.v, g)) && node in FsOf(finder.reader.v, g).nodes
    modifies finder.reader.cache, finder.reader.cache.indices, finder.reader.cache.nodes
    ensures finder.reader.Valid() && fresh(finder.reader.cache.nodes - old(finder.reader.cache.nodes))
    ensures r == L.Child(FsOf(finder.reader.v, g), node, token)
    ensures r.At? ==> IsNumber(g, r.node)
  {
    hide Reader.Valid, FsOf, DiskOk, NodeOf, L.FsOk, L.LookupIn, EntriesOf, DirIs, Target;
    NodeAt(finder.reader.v, g, node);
    r := L.Null;
    if IsDir(inode) {
      AsciiNoZero(token);
      r := finder.FindOne(inode, L.Ascii(token));
      assert r == L.Child(FsOf(finder.reader.v, g), node, token);
      if r.At? { NodeAt(finder.reader.v, g, r.node); }
    }
  }

  lemma TargetOf(v: Volume, g: Geometry, n: Inode)
    requires InodeOk(v, g, n) && IsLink(n)
    ensures KindOf(v, g, n) == L.LinkNode(Text(Target(v, n))) && NoNul(Text(Target(v, n)))
  {
    TextNoNul(Target(v, n));
  }

  predicate AllNoNul(tokens: seq<string>) {
    forall i :: 0 <= i < |tokens| ==> NoNul(tokens[i])
  }

  lemma TokensNoNul(path: string)
    requires NoNul(path)
    ensures AllNoNul(Components(path))
  {
    ComponentsNoNul(path);
  }

  /** One turn of the loop for a name that leads to node m. */
  lemma LoopTurn(fs: L.Fs, n: nat, tokens: seq<string>, links: nat)
    requires L.FsOk(fs) && n in fs.nodes && tokens != []
    ensures links >= L.LIMIT ==> L.Loop(fs, n, tokens, links) == L.Null
    ensures links < L.LIMIT && L.IsRoot(tokens[0]) ==> L.Loop(fs, n, tokens, links) == L.Loop(fs, fs.root, tokens[1..], links)
    ensures links < L.LIMIT && !L.IsRoot(tokens[0]) ==>
              match L.Child(fs, n, tokens[0])
              case Null => L.Loop(fs, n, tokens, links) == L.Null
              case At(m) =>
                && (fs.nodes[m].LinkNode? && |tokens| > 1 ==>
                      L.Loop(fs, n, tokens, links) == L.Loop(fs, n, Components(fs.nodes[m].target) + tokens[1..], links + 1))
                && (fs.nodes[m].LinkNode? && |tokens| == 1 ==> L.Loop(fs, n, tokens, links) == L.Loop(fs, m, [], links + 1))
                && (!fs.nodes[m].LinkNode? ==> L.Loop(fs, n, tokens, links) == L.Loop(fs, m, tokens[1..], links))
  {
    hide L.Child, L.FsOk;
  }

  /** find on the disk. */
  method FindPath(finder: Finder, g: Geometry, dir: nat, path: string) returns (r: L.Result)
    requires finder.reader.Valid() && DiskOk(finder.reader.v, g) && IsNumber(g, dir) && NoNul(path)
    modifies finder.reader.cache, finder.reader.cache.indices, finder.reader.cache.nodes
    ensures finder.reader.Valid() && fresh(finder.reader.cache.nodes - old(finder.reader.cache.nodes))
    ensures L.FsOk(FsOf(finder.reader.v, g)) && dir in FsOf(finder.reader.v, g).nodes
    ensures r == L.Resolve(FsOf(finder.reader.v, g), dir, Components(path), 0)
  {
    hide Reader.Valid, FsOf, DiskOk, GeometryOk, NodeOf, InodeOk, KindOf, L.FsOk, L.Loop, L.Resolve, L.Child, Components, AllNoNul, NoNul, Target, Text;
    ghost var fs := FsOf(finder.reader.v, g);
    DiskGeometry(finder.reader.v, g);
    FsOfOk(finder.reader.v, g);
    NodeAt(finder.reader.v, g, dir);
    var tokens := Tokenize(path);
    TokensNoNul(path);
    L.FindIsResolve(fs, dir, tokens, 0);
    var start := finder.GetNode(g, dir);
    var node, inode, count := dir, start.inode, 0;
    while tokens != []
      invariant finder.reader.Valid() && fresh(finder.reader.cache.nodes - old(finder.reader.cache.nodes))
      invariant IsNumber(g, node) && node in fs.nodes && NodeOf(finder.reader.v, g, node) == Just(inode) && AllNoNul(tokens)
      invariant L.Loop(fs, node, tokens, count) == L.Loop(fs, dir, Components(path), 0)
      decreases L.LIMIT - count, |tokens|
    {
      LoopTurn(fs, node, tokens, count);
      if count >= L.LIMIT { return L.Null; }
      var curr := tokens[0];
      FirstNoNul(tokens);
      tokens := tokens[1..];
      if L.IsRoot(curr) {
        NodeAt(finder.reader.v, g, 2);
        node := 2;
        var root := finder.GetNode(g, 2);
        inode := root.inode;
      } else {
        var next := FindChild(finder, g, node, inode, curr);
        if next.Null? { return L.Null; }
        NodeAt(finder.reader.v, g, next.node);
        var there := finder.GetNode(g, next.node);
        NodeIsLink(finder.reader.v, g, there.inode);
        var link := IsLink(there.inode);
        if link { count := count + 1; }
        if tokens != [] && link {
          var text := GetSymbol(finder, there.inode);
          TargetOf(finder.reader.v, g, there.inode);
          TokensNoNul(text);
          var target := Tokenize(text);
          JoinNoNul(target, tokens);
          tokens := target + tokens;
        } else {
          node, inode := next.node, there.inode;
        }
      }
    }
    LoopEnds(fs, node, count);
    return L.At(node);
  }

  lemma DiskGeometry(v: Volume, g: Geometry)
    requires DiskOk(v, g)
    ensures GeometryOk(v, g) && IsNumber(g, 2)
  {
  }

  lemma NodeIsLink(v: Volume, g: Geometry, n: Inode)
    requires InodeOk(v, g, n)
    ensures KindOf(v, g, n).LinkNode? <==> IsLink(n)
    ensures WordsOk(n) && (ShortLink(n) || NodeOk(v, n))
  {
  }

  lemma FirstNoNul(tokens: seq<string>)
    requires AllNoNul(tokens) && tokens != []
    ensures NoNul(tokens[0]) && AllNoNul(tokens[1..])
  {
  }

  lemma JoinNoNul(a: seq<string>, b: seq<string>)
    requires AllNoNul(a) && AllNoNul(b)
    ensures AllNoNul(a + b)
  {
  }

  lemma LoopEnds(fs: L.Fs, n: nat, links: nat)
    requires L.FsOk(fs) && n in fs.nodes
    ensures L.Loop(fs, n, [], links) == L.At(n)
  {
  }
}
