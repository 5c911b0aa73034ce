/** Absolute paths: `getInodeFromPath` as a fold of directory lookups over the path's components. */
module PathWalk {
  import opened Words
  import opened DirectoryBlock

  const ROOT: Word := 2
  const MAX_COMPONENT: nat := 256

  /** The first block of every inode, and the inodes whose mode is that of a directory. */
  datatype FileSystem = FileSystem(blocks: map<Word, seq<Byte>>, directories: set<Word>)

  function BlockOf(fs: FileSystem, inode: Word): seq<Byte> {
    if inode in fs.blocks then fs.blocks[inode] else []
  }

  function NameBytes(name: string): seq<Byte> {
    seq(|name|, i requires 0 <= i < |name| => LowByte(name[i] as int))
  }

  /** The scan of the directory's block. */
  function Lookup(fs: FileSystem, directory: Word, name: string): Word {
    LookupFrom(BlockOf(fs, directory), 0, NameBytes(name))
  }

  // ---------- the components of a path ----------

  /** The first position of a slash, or the length. */
  function SlashFrom(s: string, i: nat): (j: nat)
    requires i <= |s|
    ensures i <= j <= |s| && (forall k :: i <= k < j ==> s[k] != '/') && (j < |s| ==> s[j] == '/')
    decreases |s| - i
  {
    if i == |s| || s[i] == '/' then i else SlashFrom(s, i + 1)
  }

  /** The pieces between slashes, empty ones included. */
  function Split(s: string): (pieces: seq<string>)
    ensures pieces != []
    decreases |s|
  {
    var j := SlashFrom(s, 0);
    if j == |s| then [s] else [s[..j]] + Split(s[j + 1..])
  }

  /** One component of a walk; `more` when a slash follows it. */
  function Enter(fs: FileSystem, directory: Word, name: string, more: bool): Word {
    if |name| >= MAX_COMPONENT then 0
    else
      var next := Lookup(fs, directory, name);
      if more && next !in fs.directories then 0 else next
  }

  /** The fold: empty pieces are skipped, a failed component gives 0. */
  function Walk(fs: FileSystem, inode: Word, pieces: seq<string>): Word
    decreases |pieces|
  {
    if pieces == [] then inode
    else if pieces[0] == "" then Walk(fs, inode, pieces[1..])
    else
      var next := Enter(fs, inode, pieces[0], |pieces| > 1);
      if next == 0 then 0 else Walk(fs, next, pieces[1..])
  }

  function Resolve(fs: FileSystem, path: string): Word {
    if path == "" || path[0] != '/' then 0 else Walk(fs, ROOT, Split(path[1..]))
  }

  /** The scanning loop over the characters refines the fold over the components. */
  method GetInodeFromPath(fs: FileSystem, path: string) returns (inode: Word)
    ensures inode == Resolve(fs, path)
  {
    hide Walk, Split, SlashFrom;
    if path == "" || path[0] != '/' { return 0; }
    inode := ROOT;
    var p := 1;
    ghost var result := Resolve(fs, path);
    while p < |path|
      invariant 1 <= p <= |path| && result == Walk(fs, inode, Split(path[p..]))
      decreases |path| - p
    {
      var start := p;
      while p < |path| && path[p] != '/'
        invariant start <= p <= |path| && forall k :: start <= k < p ==> path[k] != '/'
        decreases |path| - p
      {
        p := p + 1;
      }
      FirstPiece(path[start..], p - start);
      WalkStep(fs, inode, path[start..], p - start);
      if p == start {
        p := p + 1;
        assert path[start..][1..] == path[p..];
        continue;
      }
      var name := path[start..p];
      assert name == path[start..][..p - start];
      assert p == |path| ==> path[start..] == name;
      if |name| >= MAX_COMPONENT { return 0; }
      var next := Lookup(fs, inode, name);
      if next == 0 { return 0; }
      if p < |path| {
        if next !in fs.directories { return 0; }
        p := p + 1;
        assert path[start..][p - start..] == path[p..];
        assert path[start..][p - 1 - start + 1..] == path[p..];
      } else {
        assert path[p..] == "";
        WalkNothing(fs, next);
      }
      inode := next;
    }
    assert path[p..] == "";
    WalkNothing(fs, inode);
  }

  lemma FirstPiece(s: string, j: nat)
    requires j <= |s| && (forall k :: 0 <= k < j ==> s[k] != '/') && (j < |s| ==> s[j] == '/')
    ensures SlashFrom(s, 0) == j
  {
  }

  lemma WalkStep(fs: FileSystem, inode: Word, s: string, j: nat)
    requires j == SlashFrom(s, 0)
    ensures j == 0 < |s| ==> Walk(fs, inode, Split(s)) == Walk(fs, inode, Split(s[1..]))
    ensures 0 < j < |s| ==>
              var next := Enter(fs, inode, s[..j], true);
              Walk(fs, inode, Split(s)) == if next == 0 then 0 else Walk(fs, next, Split(s[j + 1..]))
    ensures 0 < j == |s| ==> Walk(fs, inode, Split(s)) == Enter(fs, inode, s, false)
  {
    hide Enter, SlashFrom;
    if j < |s| {
      assert Split(s)[0] == s[..j] && Split(s)[1..] == Split(s[j + 1..]);
    } else {
      assert Split(s) == [s] && Split(s)[1..] == [];
    }
  }

  lemma WalkNothing(fs: FileSystem, inode: Word)
    ensures Walk(fs, inode, Split("")) == inode
  {
    assert Split("") == [""] && [""][1..] == [];
  }

  // ---------- what a walk means ----------

  /** Following names without looking at lengths or modes. */
  function Descend(fs: FileSystem, inode: Word, pieces: seq<string>): Word
    decreases |pieces|
  {
    if pieces == [] then inode
    else Descend(fs, if pieces[0] == "" then inode else Lookup(fs, inode, pieces[0]), pieces[1..])
  }

  /** The component at `k` stops the walk: too long, missing, or followed by a slash but no directory. */
  predicate Stops(fs: FileSystem, inode: Word, pieces: seq<string>, k: nat)
    requires k < |pieces|
  {
    var next := Lookup(fs, Descend(fs, inode, pieces[..k]), pieces[k]);
    pieces[k] != "" && (|pieces[k]| >= 256 || next == 0 || (k + 1 < |pieces| && next !in fs.directories))
  }

  /** A walk fails exactly when some component stops it, and otherwise is the plain descent. */
  lemma {:induction false} WalkIff(fs: FileSystem, inode: Word, pieces: seq<string>)
    requires inode != 0
    ensures Walk(fs, inode, pieces) == 0 <==> exists k :: 0 <= k < |pieces| && Stops(fs, inode, pieces, k)
    ensures Walk(fs, inode, pieces) != 0 ==> Walk(fs, inode, pieces) == Descend(fs, inode, pieces)
    decreases |pieces|
  {
    hide Enter;
    if pieces != [] {
      var next := if pieces[0] == "" then inode else Lookup(fs, inode, pieces[0]);
      var rest := pieces[1..];
      EnterIs(fs, inode, pieces[0], |pieces| > 1);
      forall k | 0 < k < |pieces|
        ensures Stops(fs, inode, pieces, k) <==> Stops(fs, next, rest, k - 1)
      {
        assert pieces[..k][1..] == rest[..k - 1];
      }
      assert pieces[..0] == [];
      if Stops(fs, inode, pieces, 0) {
      } else {
        WalkIff(fs, next, rest);
        if exists k :: 0 <= k < |pieces| && Stops(fs, inode, pieces, k) {
          var k :| 0 <= k < |pieces| && Stops(fs, inode, pieces, k);
          assert Stops(fs, next, rest, k - 1);
        }
        if exists k :: 0 <= k < |rest| && Stops(fs, next, rest, k) {
          var k :| 0 <= k < |rest| && Stops(fs, next, rest, k);
          assert Stops(fs, inode, pieces, k + 1);
        }
      }
    }
  }

  lemma EnterIs(fs: FileSystem, inode: Word, name: string, more: bool)
    ensures Enter(fs, inode, name, more) != 0 ==> Enter(fs, inode, name, more) == Lookup(fs, inode, name)
    ensures Enter(fs, inode, name, more) == 0
       <==> |name| >= 256 || Lookup(fs, inode, name) == 0 || (more && Lookup(fs, inode, name) !in fs.directories)
  {
  }

  predicate SomeStops(fs: FileSystem, inode: Word, pieces: seq<string>) {
    exists k :: 0 <= k < |pieces| && Stops(fs, inode, pieces, k)
  }

  /** A path leads nowhere exactly when it is not absolute or some component stops the walk from inode 2. */
  lemma ResolveIff(fs: FileSystem, path: string)
    ensures Resolve(fs, path) == 0 <==> path == "" || path[0] != '/' || SomeStops(fs, 2, Split(path[1..]))
    ensures Resolve(fs, path) != 0 ==> Resolve(fs, path) == Descend(fs, 2, Split(path[1..]))
  {
    hide Stops, Walk, Descend, Split;
    if path != "" && path[0] == '/' { WalkIff(fs, 2, Split(path[1..])); }
  }

  function Joined(pieces: seq<string>): string
    requires pieces != []
  {
    if |pieces| == 1 then pieces[0] else pieces[0] + "/" + Joined(pieces[1..])
  }

  /** The components contain no slash, and joined by slashes they are the path. */
  lemma {:induction false} SplitPieces(s: string)
    ensures Joined(Split(s)) == s && forall p :: p in Split(s) ==> '/' !in p
    decreases |s|
  {
    hide SlashFrom;
    var j := SlashFrom(s, 0);
    if j < |s| {
      SplitPieces(s[j + 1..]);
      assert Split(s)[1..] == Split(s[j + 1..]);
      assert s == s[..j] + "/" + s[j + 1..];
    }
  }

  lemma SplitFirst(s: string, j: nat)
    requires j < |s| && s[j] == '/' && forall k :: 0 <= k < j ==> s[k] != '/'
    ensures Split(s) == [s[..j]] + Split(s[j + 1..])
  {
    FirstPiece(s, j);
  }

  lemma {:induction false} SplitJoin(a: string, b: string)
    ensures Split(a + "/" + b) == Split(a) + Split(b)
    decreases |a|
  {
    hide Split;
    var s, j := a + "/" + b, SlashFrom(a, 0);
    SplitFirst(s, j);
    if j == |a| {
      assert s[..j] == a && s[j + 1..] == b;
      SplitWhole(a);
    } else {
      assert s[..j] == a[..j] && s[j + 1..] == a[j + 1..] + "/" + b;
      SplitJoin(a[j + 1..], b);
      SplitFirst(a, j);
      assert [a[..j]] + (Split(a[j + 1..]) + Split(b)) == [a[..j]] + Split(a[j + 1..]) + Split(b);
    }
  }

  lemma SplitWhole(s: string)
    requires SlashFrom(s, 0) == |s|
    ensures Split(s) == [s]
  {
  }

  /** Looking up a path within a directory's path is looking it up from that directory. */
  lemma {:induction false} WalkInto(fs: FileSystem, inode: Word, a: seq<string>, b: seq<string>)
    requires b != [] && inode != 0
    ensures var d := Walk(fs, inode, a + [""]); Walk(fs, inode, a + b) == if d == 0 then 0 else Walk(fs, d, b)
    decreases |a|
  {
    hide Enter;
    if a == [] {
      assert a + b == b && a + [""] == [""] && [""][1..] == [];
    } else {
      assert (a + b)[1..] == a[1..] + b && (a + [""])[1..] == a[1..] + [""];
      var next := if a[0] == "" then inode else Enter(fs, inode, a[0], true);
      if next != 0 { WalkInto(fs, next, a[1..], b); }
    }
  }

  /** Resolving `path/rest` is walking the components of `rest` from the directory `path/`, if there is one. */
  lemma ResolveWithin(fs: FileSystem, path: string, rest: string)
    requires path != "" && path[0] == '/'
    ensures var d := Resolve(fs, path + "/");
            Resolve(fs, path + "/" + rest) == if d == 0 then 0 else Walk(fs, d, Split(rest))
  {
    hide Walk;
    var tail := path[1..];
    assert (path + "/" + rest)[1..] == tail + "/" + rest;
    assert (path + "/")[1..] == tail + "/" + "";
    SplitJoin(tail, rest);
    SplitJoin(tail, "");
    assert Split("") == [""];
    WalkInto(fs, ROOT, Split(tail), Split(rest));
  }

  /** A slash after the path of a directory changes nothing. */
  lemma {:induction false} WalkSlash(fs: FileSystem, inode: Word, a: seq<string>)
    requires Walk(fs, inode, a + [""]) != 0
    ensures Walk(fs, inode, a) == Walk(fs, inode, a + [""])
    decreases |a|
  {
    hide Lookup;
    if a == [] {
      assert [""][1..] == [];
    } else {
      assert (a + [""])[1..] == a[1..] + [""];
      WalkSlash(fs, if a[0] == "" then inode else Lookup(fs, inode, a[0]), a[1..]);
    }
  }

  lemma ResolveSlash(fs: FileSystem, path: string)
    requires path != "" && path[0] == '/' && Resolve(fs, path + "/") != 0
    ensures Resolve(fs, path) == Resolve(fs, path + "/")
  {
    hide Walk;
    var tail := path[1..];
    assert (path + "/")[1..] == tail + "/" + "";
    SplitJoin(tail, "");
    assert Split("") == [""];
    WalkSlash(fs, ROOT, Split(tail));
  }
}
