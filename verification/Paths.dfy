/** kernel/path.h: the tokeniser, its growing character buffers and its list of components. */
module Paths {
  // ---------- the reference: splitting at every slash ----------

  /** The parts between slashes, empty ones included; `cur` is the part already begun. */
  function SplitFrom(cur: string, s: string): (parts: seq<string>)
    ensures parts != []
    decreases |s|
  {
    if s == [] then [cur]
    else if s[0] == '/' then [cur] + SplitFrom([], s[1..])
    else SplitFrom(cur + [s[0]], s[1..])
  }

  function Split(s: string): seq<string> {
    SplitFrom([], s)
  }

  function NonEmpty(parts: seq<string>): seq<string> {
    if parts == [] then [] else (if parts[0] == [] then [] else [parts[0]]) + NonEmpty(parts[1..])
  }

  /** The components of a path: a root token exactly for an absolute path, then the non-empty parts. */
  function Components(path: string): seq<string> {
    (if path != [] && path[0] == '/' then ["/"] else []) + NonEmpty(Split(path))
  }

  function Join(parts: seq<string>): string {
    if parts == [] then [] else if |parts| == 1 then parts[0] else parts[0] + "/" + Join(parts[1..])
  }

  /** Split is the way to cut a string into slash-free parts that give it back. */
  lemma {:induction false} SplitJoins(cur: string, s: string)
    requires '/' !in cur
    ensures Join(SplitFrom(cur, s)) == cur + s
    ensures forall p :: p in SplitFrom(cur, s) ==> '/' !in p
    decreases |s|
  {
    if s == [] {
      assert cur + s == cur;
    } else if s[0] == '/' {
      SplitJoins([], s[1..]);
      var rest := SplitFrom([], s[1..]);
      assert ([cur] + rest)[1..] == rest;
      assert cur + s == cur + "/" + s[1..];
      assert [] + s[1..] == s[1..];
    } else {
      SplitJoins(cur + [s[0]], s[1..]);
      assert cur + [s[0]] + s[1..] == cur + s;
    }
  }

  lemma {:induction false} NonEmptyParts(parts: seq<string>)
    ensures forall p :: p in NonEmpty(parts) <==> p in parts && p != []
  {
    if parts != [] {
      NonEmptyParts(parts[1..]);
      assert parts == [parts[0]] + parts[1..];
    }
  }

  /** Every component is non-empty and has no slash, except the root token, which is the first of an absolute path. */
  lemma ComponentsAre(path: string)
    ensures forall p :: p in NonEmpty(Split(path)) ==> p != [] && '/' !in p
    ensures (Components(path) != [] && Components(path)[0] == "/") <==> (path != [] && path[0] == '/')
  {
    SplitJoins([], path);
    NonEmptyParts(Split(path));
    var rest := NonEmpty(Split(path));
    if rest != [] {
      assert rest[0] in rest;
      assert "/"[0] == '/';
    }
  }

  /** The empty parts go, all others stay, in order. */
  lemma {:induction false} NonEmptyAppend(a: seq<string>, b: seq<string>, p: string)
    ensures NonEmpty(a + b) == NonEmpty(a) + NonEmpty(b)
    ensures NonEmpty([p]) == if p == [] then [] else [p]
  {
    assert NonEmpty([p][1..]) == [];
    if a == [] {
      assert a + b == b;
    } else {
      assert (a + b)[0] == a[0] && (a + b)[1..] == a[1..] + b;
      NonEmptyAppend(a[1..], b, p);
    }
  }

  predicate AreNames(ts: seq<string>) {
    forall i :: 0 <= i < |ts| ==> ts[i] != [] && '/' !in ts[i]
  }

  lemma {:induction false} TakePart(cur: string, p: string, rest: string)
    requires '/' !in p
    ensures SplitFrom(cur, p + rest) == SplitFrom(cur + p, rest)
    decreases |p|
  {
    if p == [] {
      assert p + rest == rest && cur + p == cur;
    } else {
      assert (p + rest)[0] == p[0] && (p + rest)[1..] == p[1..] + rest;
      assert p[0] in p;
      TakePart(cur + [p[0]], p[1..], rest);
      assert cur + [p[0]] + p[1..] == cur + p;
    }
  }

  lemma SplitLast(p: string)
    requires '/' !in p
    ensures Split(p) == [p]
  {
    TakePart([], p, []);
    assert p + [] == p && [] + p == p;
  }

  lemma SplitFirst(p: string, rest: string)
    requires '/' !in p
    ensures Split(p + "/" + rest) == [p] + Split(rest)
  {
    var slash := "/" + rest;
    assert slash[0] == '/' && slash[1..] == rest && p + "/" + rest == p + slash;
    TakePart([], p, slash);
    assert [] + p == p;
  }

  lemma {:induction false} SplitOfJoin(ts: seq<string>)
    requires AreNames(ts) && ts != []
    ensures Split(Join(ts)) == ts && Join(ts) != [] && Join(ts)[0] != '/'
  {
    hide Split;
    var p := ts[0];
    assert p[0] in p;
    if |ts| == 1 {
      SplitLast(p);
    } else {
      SplitOfJoin(ts[1..]);
      SplitFirst(p, Join(ts[1..]));
    }
  }

  lemma {:induction false} NamesStay(ts: seq<string>)
    requires AreNames(ts)
    ensures NonEmpty(ts) == ts
  {
    if ts != [] {
      NamesStay(ts[1..]);
      assert ts == [ts[0]] + ts[1..];
    }
  }

  /** Round trip: the components of names joined by slashes are those names, after the root token if there is a slash before
      them. */
  lemma ComponentsOfJoin(ts: seq<string>)
    requires AreNames(ts)
    ensures Components(Join(ts)) == ts && Components("/" + Join(ts)) == ["/"] + ts
  {
    NamesStay(ts);
    var path := "/" + Join(ts);
    assert path[0] == '/' && path[1..] == Join(ts);
    NonEmptyAppend([[]], Split(Join(ts)), []);
    assert Split(path) == [[]] + Split(Join(ts));
    if ts == [] {
      assert Split(Join(ts)) == [[]];
    } else {
      SplitOfJoin(ts);
    }
  }

  // ---------- the tokeniser ----------

  /** A growing buffer of characters. */
  class PathString {
    var name: array<char>
    var size: nat

    ghost predicate Valid()
      reads this
    {
      size < name.Length && name.Length >= 10
    }

    ghost function Text(): string
      requires Valid()
      reads this, name
    {
      name[..size]
    }

    constructor ()
      ensures Valid() && fresh(name) && Text() == []
    {
      size := 0;
      name := new char[10];
    }

    /** Grows by half when the next character would fill the buffer. */
    method AddChar(c: char)
      requires Valid()
      modifies this, name
      ensures Valid() && Text() == old(Text()) + [c] && (name == old(name) || fresh(name))
    {
      if size + 1 >= name.Length {
        var bigger := new char[name.Length * 3 / 2];
        for i := 0 to size
          invariant Valid() && name == old(name) && size == old(size) && name[..size] == old(name[..size])
          invariant bigger[..i] == name[..i]
        {
          bigger[i] := name[i];
        }
        name := bigger;
      }
      name[size] := c;
      size := size + 1;
    }

    /** get. */
    method Get() returns (s: string)
      requires Valid()
      ensures s == Text()
    {
      s := [];
      for i := 0 to size
        invariant s == name[..i]
      {
        s := s + [name[i]];
      }
    }
  }

  method SkipSlashes(path: string, start: nat) returns (i: nat)
    requires start <= |path|
    ensures start <= i <= |path| && (i < |path| ==> path[i] != '/')
    ensures NonEmpty(SplitFrom([], path[start..])) == NonEmpty(SplitFrom([], path[i..]))
    ensures i > start ==> path[start] == '/'
  {
    i := start;
    while i < |path| && path[i] == '/'
      invariant start <= i <= |path|
      invariant NonEmpty(SplitFrom([], path[start..])) == NonEmpty(SplitFrom([], path[i..]))
      invariant i > start ==> path[start] == '/'
    {
      EmptyPart(path, i);
      i := i + 1;
    }
  }

  lemma EmptyPart(path: string, i: nat)
    requires i < |path| && path[i] == '/'
    ensures NonEmpty(SplitFrom([], path[i..])) == NonEmpty(SplitFrom([], path[i + 1..]))
  {
    assert path[i..][1..] == path[i + 1..];
    var rest := SplitFrom([], path[i + 1..]);
    assert ([[]] + rest)[1..] == rest;
  }

  lemma EndPart(cur: string, path: string, i: nat)
    requires i < |path| && path[i] == '/' && cur != []
    ensures NonEmpty(SplitFrom(cur, path[i..])) == [cur] + NonEmpty(SplitFrom([], path[i + 1..]))
  {
    assert path[i..][1..] == path[i + 1..];
    var rest := SplitFrom([], path[i + 1..]);
    assert ([cur] + rest)[1..] == rest;
  }

  lemma CharPart(cur: string, path: string, i: nat)
    requires i < |path| && path[i] != '/'
    ensures SplitFrom(cur, path[i..]) == SplitFrom(cur + [path[i]], path[i + 1..])
  {
    assert path[i..][1..] == path[i + 1..];
  }

  lemma LastPart(cur: string, path: string, i: nat)
    requires i == |path|
    ensures NonEmpty(SplitFrom(cur, path[i..])) == if cur == [] then [] else [cur]
  {
    assert path[i..] == [];
    assert NonEmpty([cur][1..]) == [];
  }

  lemma FirstPart(path: string)
    ensures Components(path) == (if path != [] && path[0] == '/' then ["/"] else []) + NonEmpty(SplitFrom([], path[0..]))
  {
    assert path[0..] == path;
  }

  /** The constructor of Path: one pass over the characters. */
  method Tokenize(path: string) returns (tokens: seq<string>)
    ensures tokens == Components(path)
  {
    hide Components, SplitFrom, NonEmpty, Split;
    FirstPart(path);
    tokens := [];
    if path == [] {
      LastPart([], path, 0);
      return;
    }
    if path[0] == '/' { tokens := ["/"]; }
    var i := SkipSlashes(path, 0);
    var cur := new PathString();
    ghost var text := "";
    while i < |path|
      invariant i <= |path| && cur.Valid() && fresh(cur) && fresh(cur.name) && cur.Text() == text
      invariant text == [] ==> i == |path| || path[i] != '/'
      invariant Components(path) == tokens + NonEmpty(SplitFrom(text, path[i..]))
      decreases |path| - i
    {
      if path[i] == '/' {
        EndPart(text, path, i);
        var part := cur.Get();
        tokens := tokens + [part];
        cur := new PathString();
        text := "";
        i := SkipSlashes(path, i + 1);
      } else {
        CharPart(text, path, i);
        cur.AddChar(path[i]);
        text := text + [path[i]];
        i := i + 1;
      }
    }
    LastPart(text, path, i);
    if cur.size != 0 {
      var part := cur.Get();
      tokens := tokens + [part];
    }
  }
}
