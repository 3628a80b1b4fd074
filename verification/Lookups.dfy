/** Ext2::find of kernel/ext2.cc: one loop that splices the target of a symbolic link before the rest of the path. */
module Lookups {
  import opened Paths

  datatype Entry = Entry(name: seq<int>, inode: nat)

  datatype Node = DirNode(entries: seq<Entry>) | LinkNode(target: string) | FileNode

  datatype Result = Null | At(node: nat)

  /** The nodes of a mounted file system by number; every entry names a node or is unused. */
  datatype Fs = Fs(nodes: map<nat, Node>, root: nat)

  predicate FsOk(fs: Fs) {
    && fs.root in fs.nodes
    && (forall n :: n in fs.nodes && fs.nodes[n].DirNode? ==> EntriesOk(fs, fs.nodes[n].entries))
  }

  predicate EntriesOk(fs: Fs, entries: seq<Entry>) {
    forall i :: 0 <= i < |entries| ==> entries[i].inode == 0 || entries[i].inode in fs.nodes
  }

  /** find_one: the first entry with the name; an unused entry (inode 0) gives a null node. */
  function LookupIn(entries: seq<Entry>, name: seq<int>): Result {
    if entries == [] then Null
    else if entries[0].name == name then (if entries[0].inode == 0 then Null else At(entries[0].inode))
    else LookupIn(entries[1..], name)
  }

  /** A node is found exactly when the first entry with the name has one. */
  lemma {:induction false} LookupFirst(entries: seq<Entry>, name: seq<int>)
    ensures LookupIn(entries, name).At? <==> exists k :: FirstNamed(entries, name, k) && entries[k].inode != 0
    ensures forall k :: FirstNamed(entries, name, k) && entries[k].inode != 0 ==> LookupIn(entries, name) == At(entries[k].inode)
  {
    if entries != [] {
      LookupFirst(entries[1..], name);
      if entries[0].name == name {
        assert FirstNamed(entries, name, 0);
      } else {
        forall k
          ensures FirstNamed(entries, name, k) <==> FirstNamed(entries[1..], name, k - 1)
        {
          assert 0 < k < |entries| ==> entries[1..][k - 1] == entries[k];
          assert FirstNamed(entries[1..], name, k - 1) ==> forall j :: 0 < j < k ==> entries[j] == entries[1..][j - 1];
          assert FirstNamed(entries, name, k) ==> forall j :: 0 <= j < k - 1 ==> entries[1..][j] == entries[j + 1];
        }
        if LookupIn(entries, name).At? {
          var k :| FirstNamed(entries[1..], name, k) && entries[1..][k].inode != 0;
          assert FirstNamed(entries, name, k + 1);
        }
      }
    }
  }

  predicate FirstNamed(entries: seq<Entry>, name: seq<int>, k: int) {
    0 <= k < |entries| && entries[k].name == name && forall j :: 0 <= j < k ==> entries[j].name != name
  }

  function Ascii(s: string): seq<int> {
    seq(|s|, i requires 0 <= i < |s| => s[i] as int)
  }

  function Child(fs: Fs, n: nat, token: string): (r: Result)
    requires FsOk(fs) && n in fs.nodes
    ensures r.At? ==> r.node in fs.nodes
  {
    if !fs.nodes[n].DirNode? then Null
    else
      LookupThere(fs, fs.nodes[n].entries, Ascii(token));
      LookupIn(fs.nodes[n].entries, Ascii(token))
  }

  lemma {:induction false} LookupThere(fs: Fs, entries: seq<Entry>, name: seq<int>)
    requires EntriesOk(fs, entries)
    ensures LookupIn(entries, name).At? ==> LookupIn(entries, name).node in fs.nodes
  {
    if entries != [] {
      assert entries[0].inode == 0 || entries[0].inode in fs.nodes;
      LookupThere(fs, entries[1..], name);
    }
  }

  predicate IsRoot(token: string) {
    token != [] && token[0] == '/'
  }

  const LIMIT := 100

  // ---------- the reference: links resolved by recursion ----------

  datatype Walked = Lost | Stop(node: nat, links: nat)

  /** Walk all the tokens from node n with every link followed; a link is resolved by a walk of its own, from the
      directory it is in, before the walk goes on. */
  ghost function Walk(fs: Fs, n: nat, tokens: seq<string>, links: nat): (w: Walked)
    requires FsOk(fs) && n in fs.nodes
    ensures w.Stop? ==> w.node in fs.nodes && w.links >= links
    decreases LIMIT - links, |tokens|
  {
    if tokens == [] then Stop(n, links)
    else if links >= LIMIT then Lost
    else if IsRoot(tokens[0]) then Walk(fs, fs.root, tokens[1..], links)
    else
      match Child(fs, n, tokens[0])
      case Null => Lost
      case At(m) =>
        if fs.nodes[m].LinkNode? then
          match Walk(fs, n, Components(fs.nodes[m].target), links + 1)
          case Lost => Lost
          case Stop(m', links') => Walk(fs, m', tokens[1..], links')
        else Walk(fs, m, tokens[1..], links)
  }

  /** The last token is looked up but not followed. */
  function LastStep(fs: Fs, n: nat, token: string, links: nat): Result
    requires FsOk(fs) && n in fs.nodes
  {
    if links >= LIMIT then Null else if IsRoot(token) then At(fs.root) else Child(fs, n, token)
  }

  ghost function Resolve(fs: Fs, n: nat, tokens: seq<string>, links: nat): Result
    requires FsOk(fs) && n in fs.nodes
  {
    if tokens == [] then At(n)
    else
      match Walk(fs, n, tokens[..|tokens| - 1], links)
      case Lost => Null
      case Stop(m, links') => LastStep(fs, m, tokens[|tokens| - 1], links')
  }

  // ---------- the loop ----------

  /** What the loop computes from a state of its variables. */
  ghost function Loop(fs: Fs, n: nat, tokens: seq<string>, links: nat): Result
    requires FsOk(fs) && n in fs.nodes
    decreases LIMIT - links, |tokens|
  {
    if tokens == [] then At(n)
    else if links >= LIMIT then Null
    else if IsRoot(tokens[0]) then Loop(fs, fs.root, tokens[1..], links)
    else
      match Child(fs, n, tokens[0])
      case Null => Null
      case At(m) =>
        var links' := if fs.nodes[m].LinkNode? then links + 1 else links;
        if tokens[1..] != [] && fs.nodes[m].LinkNode? then Loop(fs, n, Components(fs.nodes[m].target) + tokens[1..], links')
        else if links' > links then At(m)
        else Loop(fs, m, tokens[1..], links')
  }

  /** find, with the token list as the loop changes it.  It ends because each turn uses up a link or a token. */
  method Find(fs: Fs, dir: nat, path: string) returns (r: Result)
    requires FsOk(fs) && dir in fs.nodes
    ensures r == Resolve(fs, dir, Components(path), 0)
  {
    var tokens := Tokenize(path);
    var node, count := dir, 0;
    FindIsResolve(fs, dir, tokens, 0);
    while tokens != []
      invariant node in fs.nodes
      invariant Loop(fs, node, tokens, count) == Loop(fs, dir, Components(path), 0)
      decreases LIMIT - count, |tokens|
    {
      if count >= LIMIT { return Null; }
      var curr := tokens[0];
      tokens := tokens[1..];
      if IsRoot(curr) {
        node := fs.root;
      } else {
        if !fs.nodes[node].DirNode? { return Null; }
        var next := Child(fs, node, curr);
        if next.Null? { return Null; }
        var link := fs.nodes[next.node].LinkNode?;
        if link { count := count + 1; }
        if tokens != [] && link {
          var target := Tokenize(fs.nodes[next.node].target);
          tokens := target + tokens;
        } else {
          node := next.node;
        }
      }
    }
    return At(node);
  }

  // ---------- splicing is recursion ----------

  /** Walking two paths one after the other is walking their concatenation. */
  lemma {:induction false} WalkAppend(fs: Fs, n: nat, a: seq<string>, b: seq<string>, links: nat)
    requires FsOk(fs) && n in fs.nodes
    ensures Walk(fs, n, a + b, links) == match Walk(fs, n, a, links) case Lost => Lost case Stop(m, links') => Walk(fs, m, b, links')
    decreases LIMIT - links, |a|
  {
    if a == [] {
      assert a + b == b;
    } else if links < LIMIT {
      assert (a + b)[1..] == a[1..] + b && (a + b)[0] == a[0];
      if IsRoot(a[0]) {
        WalkAppend(fs, fs.root, a[1..], b, links);
      } else {
        var c := Child(fs, n, a[0]);
        if c.At? {
          if fs.nodes[c.node].LinkNode? {
            var w := Walk(fs, n, Components(fs.nodes[c.node].target), links + 1);
            if w.Stop? { WalkAppend(fs, w.node, a[1..], b, w.links); }
          } else {
            WalkAppend(fs, c.node, a[1..], b, links);
          }
        }
      }
    }
  }

  /** The loop agrees with the recursive resolution, from every state of its variables. */
  lemma {:induction false} FindIsResolve(fs: Fs, n: nat, tokens: seq<string>, links: nat)
    requires FsOk(fs) && n in fs.nodes
    ensures Loop(fs, n, tokens, links) == Resolve(fs, n, tokens, links)
    decreases LIMIT - links, |tokens|
  {
    if |tokens| == 1 {
      assert tokens[..0] == [] && tokens[1..] == [];
    } else if tokens != [] {
      var front, last := tokens[..|tokens| - 1], tokens[|tokens| - 1];
      var rest := tokens[1..];
      assert front[1..] == rest[..|rest| - 1] && front[0] == tokens[0] && rest[|rest| - 1] == last;
      if links < LIMIT {
        if IsRoot(tokens[0]) {
          FindIsResolve(fs, fs.root, rest, links);
        } else {
          var c := Child(fs, n, tokens[0]);
          if c.At? {
            if fs.nodes[c.node].LinkNode? {
              LinkSpliced(fs, n, tokens, links, Components(fs.nodes[c.node].target));
            } else {
              FindIsResolve(fs, c.node, rest, links);
            }
          }
        }
      }
    }
  }

  lemma LinkSpliced(fs: Fs, n: nat, tokens: seq<string>, links: nat, target: seq<string>)
    requires FsOk(fs) && n in fs.nodes && |tokens| > 1 && links < LIMIT && !IsRoot(tokens[0])
    requires var c := Child(fs, n, tokens[0]); c.At? && fs.nodes[c.node].LinkNode? && target == Components(fs.nodes[c.node].target)
    ensures Loop(fs, n, tokens, links) == Resolve(fs, n, tokens, links)
    decreases LIMIT - links, |tokens|, 0
  {
    var front, rest := tokens[..|tokens| - 1], tokens[1..];
    var spliced := target + rest;
    FindIsResolve(fs, n, spliced, links + 1);
    assert spliced[..|spliced| - 1] == target + rest[..|rest| - 1];
    assert spliced[|spliced| - 1] == tokens[|tokens| - 1];
    WalkAppend(fs, n, target, rest[..|rest| - 1], links + 1);
    assert front[1..] == rest[..|rest| - 1] && front[0] == tokens[0];
  }

  /** A link before the last name: a relative target goes on from the directory the link is in, an absolute one from the
      root, and the rest of the path after it. */
  lemma LinkFollowed(fs: Fs, n: nat, name: string, rest: seq<string>, links: nat, target: string)
    requires FsOk(fs) && n in fs.nodes && !IsRoot(name) && rest != [] && links + 1 < 100
    requires Child(fs, n, name).At? && fs.nodes[Child(fs, n, name).node] == LinkNode(target)
    ensures Resolve(fs, n, [name] + rest, links) ==
            if target != [] && target[0] == '/' then Resolve(fs, fs.root, NonEmpty(Split(target)) + rest, links + 1)
            else Resolve(fs, n, NonEmpty(Split(target)) + rest, links + 1)
  {
    var tokens := [name] + rest;
    assert tokens[0] == name && tokens[1..] == rest;
    FindIsResolve(fs, n, tokens, links);
    var parts := NonEmpty(Split(target)) + rest;
    FindIsResolve(fs, n, Components(target) + rest, links + 1);
    if target != [] && target[0] == '/' {
      var spliced := Components(target) + rest;
      assert spliced[0] == "/" && spliced[1..] == parts;
      FindIsResolve(fs, fs.root, parts, links + 1);
    } else {
      assert Components(target) + rest == parts;
    }
  }

  /** The last name is looked up and not followed, whatever it names. */
  lemma LastNotFollowed(fs: Fs, n: nat, name: string)
    requires FsOk(fs) && n in fs.nodes && !IsRoot(name)
    ensures Resolve(fs, n, [name], 0) == Child(fs, n, name)
  {
    assert [name][..0] == [];
  }

  // ---------- what the bound on links does ----------

  /** Links followed without a bound of their own: where the tokens lead and through how many links; out of `fuel` links; or
      a name that is not there. */
  datatype Free = Broken | Endless | End(node: nat, links: nat)

  ghost function FreeWalk(fs: Fs, n: nat, tokens: seq<string>, fuel: nat): (w: Free)
    requires FsOk(fs) && n in fs.nodes
    ensures w.End? ==> w.node in fs.nodes && w.links <= fuel
    decreases fuel, |tokens|
  {
    if tokens == [] then End(n, 0)
    else if IsRoot(tokens[0]) then FreeWalk(fs, fs.root, tokens[1..], fuel)
    else
      match Child(fs, n, tokens[0])
      case Null => Broken
      case At(m) =>
        if !fs.nodes[m].LinkNode? then FreeWalk(fs, m, tokens[1..], fuel)
        else if fuel == 0 then Endless
        else
          match FreeWalk(fs, n, Components(fs.nodes[m].target), fuel - 1)
          case Broken => Broken
          case Endless => Endless
          case End(m', k) =>
            match FreeWalk(fs, m', tokens[1..], fuel - 1 - k)
            case Broken => Broken
            case Endless => Endless
            case End(m'', k') => End(m'', 1 + k + k')
  }

  /** With fuel for a hundred links the bounded walk stops only where the free one does, and does stop there when fewer than
      a hundred links are followed. */
  lemma {:induction false} WalkIsFree(fs: Fs, n: nat, tokens: seq<string>, links: nat, fuel: nat)
    requires FsOk(fs) && n in fs.nodes && links <= 100 <= links + fuel
    ensures var w, f := Walk(fs, n, tokens, links), FreeWalk(fs, n, tokens, fuel);
            && (w.Stop? ==> w.links <= 100 && f.End? && w == Stop(f.node, links + f.links))
            && (f.End? && links + f.links < 100 ==> w.Stop?)
    decreases 100 - links, |tokens|
  {
    if tokens != [] && links < 100 {
      if IsRoot(tokens[0]) {
        WalkIsFree(fs, fs.root, tokens[1..], links, fuel);
      } else {
        var c := Child(fs, n, tokens[0]);
        if c.At? {
          if fs.nodes[c.node].LinkNode? {
            var target := Components(fs.nodes[c.node].target);
            WalkIsFree(fs, n, target, links + 1, fuel - 1);
            var w := Walk(fs, n, target, links + 1);
            if w.Stop? {
              WalkIsFree(fs, w.node, tokens[1..], w.links, fuel - (w.links - links));
            }
          } else {
            WalkIsFree(fs, c.node, tokens[1..], links, fuel);
          }
        }
      }
    }
  }

  /** find gives what unbounded resolution gives as long as fewer than a hundred links are followed before the last name, and
      null from the hundredth on. */
  lemma FewerThanHundredLinks(fs: Fs, n: nat, tokens: seq<string>, fuel: nat)
    requires FsOk(fs) && n in fs.nodes && tokens != [] && fuel >= 100
    ensures Resolve(fs, n, tokens, 0) ==
            match FreeWalk(fs, n, tokens[..|tokens| - 1], fuel)
            case End(m, k) => if k >= 100 then Null else if IsRoot(tokens[|tokens| - 1]) then At(fs.root) else Child(fs, m, tokens[|tokens| - 1])
            case _ => Null
  {
    WalkIsFree(fs, n, tokens[..|tokens| - 1], 0, fuel);
  }
}
