/** What creating, deleting and moving directory entries does to all paths. */
module PathUpdates {
  import opened Words
  import opened DirectoryBlock
  import opened PathWalk

  /** One name in one directory. */
  type Link = (Word, seq<Byte>)

  predicate IsAbsolute(path: string) { path != "" && path[0] == '/' }

  predicate IsComponent(name: string) { name != "" && '/' !in name }

  /** The links in `gone` are found no more, and every other one that was found is found as before. */
  ghost predicate Keeps(fs: FileSystem, gs: FileSystem, gone: set<Link>) {
    && gs.directories == fs.directories
    && forall directory: Word, name :: Lookup(fs, directory, name) != 0 ==> Stays(fs, gs, gone, directory, name)
  }

  predicate Stays(fs: FileSystem, gs: FileSystem, gone: set<Link>, directory: Word, name: string) {
    Lookup(gs, directory, name) == if (directory, NameBytes(name)) in gone then 0 else Lookup(fs, directory, name)
  }

  /** The descent along these pieces passes through one of the links. */
  predicate Passes(fs: FileSystem, inode: Word, pieces: seq<string>, links: set<Link>)
    decreases |pieces|
  {
    pieces != []
    && if pieces[0] == "" then Passes(fs, inode, pieces[1..], links)
       else (inode, NameBytes(pieces[0])) in links || Passes(fs, Lookup(fs, inode, pieces[0]), pieces[1..], links)
  }

  predicate PathPasses(fs: FileSystem, path: string, links: set<Link>) {
    IsAbsolute(path) && Passes(fs, ROOT, Split(path[1..]), links)
  }

  lemma {:induction false} WalkKeeps(fs: FileSystem, gs: FileSystem, gone: set<Link>, inode: Word, pieces: seq<string>)
    requires Keeps(fs, gs, gone) && Walk(fs, inode, pieces) != 0
    ensures Walk(gs, inode, pieces) == if Passes(fs, inode, pieces, gone) then 0 else Walk(fs, inode, pieces)
    decreases |pieces|
  {
    hide Lookup;
    if pieces != [] {
      if pieces[0] == "" {
        WalkKeeps(fs, gs, gone, inode, pieces[1..]);
      } else {
        WalkKeeps(fs, gs, gone, Lookup(fs, inode, pieces[0]), pieces[1..]);
      }
    }
  }

  lemma ResolveKeeps(fs: FileSystem, gs: FileSystem, gone: set<Link>, path: string)
    requires Keeps(fs, gs, gone) && Resolve(fs, path) != 0
    ensures Resolve(gs, path) == if PathPasses(fs, path, gone) then 0 else Resolve(fs, path)
  {
    hide Keeps, Walk, Split;
    WalkKeeps(fs, gs, gone, ROOT, Split(path[1..]));
  }

  lemma {:induction false} NothingPasses(fs: FileSystem, inode: Word, pieces: seq<string>)
    ensures !Passes(fs, inode, pieces, {})
    decreases |pieces|
  {
    if pieces != [] {
      NothingPasses(fs, inode, pieces[1..]);
      NothingPasses(fs, Lookup(fs, inode, pieces[0]), pieces[1..]);
    }
  }

  /** A component below a directory is one lookup in it. */
  lemma ResolveChild(fs: FileSystem, path: string, name: string)
    requires IsAbsolute(path) && IsComponent(name)
    ensures var d := Resolve(fs, path + "/");
            Resolve(fs, path + "/" + name) == if d == 0 || |name| >= MAX_COMPONENT then 0 else Lookup(fs, d, name)
  {
    hide Walk, Lookup;
    ResolveWithin(fs, path, name);
    FirstPiece(name, |name|);
    WalkStep(fs, Resolve(fs, path + "/"), name, |name|);
  }

  // ---------- creating ----------

  /** `createFile` adds the name to the directory's block; the inode gets the mode of a plain file. */
  function Created(fs: FileSystem, directory: Word, entries: seq<Entry>, name: string, inode: Word): FileSystem
    requires entries != [] && HasRoom(entries, |name| % 0x100)
  {
    var stored := NameBytes(name)[..|name| % 0x100];
    FileSystem(fs.blocks[directory := Serialize(Extended(entries, inode, 1, stored))], fs.directories - {inode})
  }

  /**
    * A file created below a directory's path is reached by its path exactly when the name fits the length byte and
    * was not in use; every path that led somewhere still leads there.
    */
  lemma CreatedPathIff(fs: FileSystem, path: string, entries: seq<Entry>, name: string, inode: Word)
    requires IsAbsolute(path) && IsComponent(name) && Resolve(fs, path + "/") != 0
    requires inode != 0 && inode !in fs.directories
    requires BlockOf(fs, Resolve(fs, path + "/")) == Serialize(entries) && Tiled(entries)
    requires entries != [] && HasRoom(entries, |name| % 0x100)
    ensures var gs := Created(fs, Resolve(fs, path + "/"), entries, name, inode);
            && (Resolve(gs, path + "/" + name) == inode
                <==> |name| < 0x100 && (Find(entries, NameBytes(name)) == 0 || Find(entries, NameBytes(name)) == inode))
            && forall p :: Resolve(fs, p) != 0 ==> Resolve(gs, p) == Resolve(fs, p)
  {
    hide Resolve, Serialize, Extended, HasRoom, Tiled, Find, LookupFrom, Keeps, PathPasses;
    var d := Resolve(fs, path + "/");
    var gs := Created(fs, d, entries, name, inode);
    CreatedKeeps(fs, d, entries, name, inode);
    forall p | Resolve(fs, p) != 0
      ensures Resolve(gs, p) == Resolve(fs, p)
    {
      UntouchedPath(fs, gs, p);
    }
    ResolveChild(gs, path, name);
    if |name| < 0x100 { CreateFindsIff(entries, inode, NameBytes(name)); }
  }

  lemma UntouchedPath(fs: FileSystem, gs: FileSystem, path: string)
    requires Keeps(fs, gs, {}) && Resolve(fs, path) != 0
    ensures Resolve(gs, path) == Resolve(fs, path)
  {
    hide Keeps, Walk, Split, Passes;
    ResolveKeeps(fs, gs, {}, path);
    NothingPasses(fs, ROOT, Split(path[1..]));
  }

  lemma CreatedKeeps(fs: FileSystem, directory: Word, entries: seq<Entry>, name: string, inode: Word)
    requires BlockOf(fs, directory) == Serialize(entries) && Tiled(entries)
    requires inode != 0 && inode !in fs.directories
    requires entries != [] && HasRoom(entries, |name| % 0x100)
    ensures Keeps(fs, Created(fs, directory, entries, name, inode), {})
  {
    hide Serialize, Extended, HasRoom, Tiled, Find, LookupFrom;
    var stored := NameBytes(name)[..|name| % 0x100];
    ExtendedTiled(entries, inode, 1, stored);
    forall d, n | Lookup(fs, d, n) != 0
      ensures Lookup(Created(fs, directory, entries, name, inode), d, n) == Lookup(fs, d, n)
    {
      if d == directory {
        WholeLookup(Serialize(entries), entries, NameBytes(n));
        WholeLookup(Serialize(Extended(entries, inode, 1, stored)), Extended(entries, inode, 1, stored), NameBytes(n));
        FindExtended(entries, inode, 1, stored, NameBytes(n));
      }
    }
  }

  /** The names of a directory keep their inodes when an entry is added behind them. */
  lemma FindExtended(entries: seq<Entry>, inode: Word, fileType: Byte, added: seq<Byte>, name: seq<Byte>)
    requires entries != [] && HasRoom(entries, |added|)
    ensures Find(entries, name) != 0 ==> Find(Extended(entries, inode, fileType, added), name) == Find(entries, name)
  {
    hide Extended, Find, Keys, HasRoom, KeyNamed;
    var x := Extended(entries, inode, fileType, added);
    ExtendedKeys(entries, inode, fileType, added);
    PositionAppend(Keys(entries), Key(inode, fileType, added), name);
    NamedInode(entries, name);
    NamedInode(x, name);
  }

  // ---------- deleting ----------

  /**
    * Deleting an entry of a directory, when it removes exactly that entry: the paths that pass through it lead
    * nowhere, and every other path is as it was.
    */
  lemma DeletedPaths(fs: FileSystem, directory: Word, entries: seq<Entry>, i: nat, after: seq<Byte>, path: string)
    requires BlockOf(fs, directory) == Serialize(entries) && WellFormed(entries) && i < |entries|
    requires FirstInode(Keys(entries), entries[i].inode) == i && (i > 0 || |entries| == 1)
    requires IsRemoval(entries, i, after)
    ensures var gs := fs.(blocks := fs.blocks[directory := after]);
            Resolve(gs, path) == if PathPasses(fs, path, {(directory, entries[i].name)}) then 0 else Resolve(fs, path)
  {
    hide Resolve, Keeps, PathPasses, Serialize, WellFormed, IsRemoval, FirstInode;
    var gs := fs.(blocks := fs.blocks[directory := after]);
    var gone := {(directory, entries[i].name)};
    DeletedKeeps(fs, directory, entries, i, after);
    if Resolve(fs, path) != 0 { ResolveKeeps(fs, gs, gone, path); }
    if Resolve(gs, path) != 0 { UntouchedPath(gs, fs, path); }
  }

  /** Exactly the one link goes, and none comes. */
  lemma DeletedKeeps(fs: FileSystem, directory: Word, entries: seq<Entry>, i: nat, after: seq<Byte>)
    requires BlockOf(fs, directory) == Serialize(entries) && WellFormed(entries) && i < |entries|
    requires FirstInode(Keys(entries), entries[i].inode) == i && (i > 0 || |entries| == 1)
    requires IsRemoval(entries, i, after)
    ensures var gs := fs.(blocks := fs.blocks[directory := after]);
            Keeps(fs, gs, {(directory, entries[i].name)}) && Keeps(gs, fs, {})
  {
    hide Serialize, IsRemoval, FirstInode, LookupFrom, Find;
    DeleteExactIff(entries, i, after);
    forall name: string
      ensures LookupFrom(after, 0, NameBytes(name))
           == if NameBytes(name) == entries[i].name then 0
              else LookupFrom(Serialize(entries), 0, NameBytes(name))
    {
      assert FoundAfter(entries, entries[i].name, after, NameBytes(name));
      WholeLookup(Serialize(entries), entries, NameBytes(name));
    }
  }

  /** After the deletion of `..` in the root no path leads anywhere but to the root itself. */
  lemma RootPathsLost(fs: FileSystem, after: seq<Byte>, path: string)
    requires IsRemoval(RootBlock(), Victim(Keys(RootBlock()), [0x2E, 0x2E]), after)
    ensures var gs := fs.(blocks := fs.blocks[ROOT := after]);
            Resolve(gs, path) != 0 ==> forall k :: k in Split(path[1..]) ==> k == ""
  {
    hide IsRemoval, RootBlock, Victim, Keys, Split, LookupFrom;
    RootLosesAll(after);
    if path != "" { EmptyRoot(fs.(blocks := fs.blocks[ROOT := after]), Split(path[1..])); }
  }

  lemma {:induction false} EmptyRoot(fs: FileSystem, pieces: seq<string>)
    requires forall name :: LookupFrom(BlockOf(fs, ROOT), 0, name) == 0
    ensures Walk(fs, ROOT, pieces) != 0 ==> forall k :: k in pieces ==> k == ""
    decreases |pieces|
  {
    hide LookupFrom;
    if pieces != [] {
      EmptyRoot(fs, pieces[1..]);
      assert Lookup(fs, ROOT, pieces[0]) == 0;
      assert pieces == [pieces[0]] + pieces[1..];
    }
  }

  // ---------- moving ----------

  /** The file system after a move between two directories. */
  function Moved(fs: FileSystem, from: Word, to: Word, after: seq<Byte>, extended: seq<Entry>): FileSystem {
    fs.(blocks := fs.blocks[from := after][to := Serialize(extended)])
  }

  /**
    * `moveFile` when it conserves the entries of both directories: the file is reached by its new path exactly when
    * the path of the destination does not pass through the moved entry, so not when a directory is moved below
    * itself. Paths through the old entry lead nowhere, and every other path that led somewhere still leads there.
    */
  lemma MovedPathIff(fs: FileSystem, from: Word, source: seq<Entry>, to: string, destination: seq<Entry>, i: nat,
    name: string, after: seq<Byte>)
    requires IsAbsolute(to) && IsComponent(name) && Resolve(fs, to + "/") != 0 && Resolve(fs, to + "/") != from
    requires BlockOf(fs, from) == Serialize(source) && BlockOf(fs, Resolve(fs, to + "/")) == Serialize(destination)
    requires WellFormed(source) && Tiled(destination) && i < |source| && source[i].name == NameBytes(name)
    requires IsNew(destination, NameBytes(name)) && HasRoom(destination, |name|)
    requires FirstInode(Keys(source), source[i].inode) == i && (i > 0 || |source| == 1) && IsRemoval(source, i, after)
    ensures var extended := Extended(destination, source[i].inode, source[i].fileType, source[i].name);
            var gs := Moved(fs, from, Resolve(fs, to + "/"), after, extended);
            var gone := {(from, NameBytes(name))};
            && (Resolve(gs, to + "/" + name) == source[i].inode <==> !PathPasses(fs, to + "/", gone))
            && (forall p :: Resolve(fs, p) != 0
                  ==> Resolve(gs, p) == if PathPasses(fs, p, gone) then 0 else Resolve(fs, p))
  {
    assert destination != [];
    hide Resolve, Keeps, PathPasses, Serialize, WellFormed, Tiled, IsNew, IsRemoval, FirstInode, Keys, HasRoom,
         Extended;
    var extended := Extended(destination, source[i].inode, source[i].fileType, source[i].name);
    var d := Resolve(fs, to + "/");
    var gs := Moved(fs, from, d, after, extended);
    var gone := {(from, NameBytes(name))};
    MovedKeeps(fs, from, source, d, destination, i, after);
    forall p | Resolve(fs, p) != 0
      ensures Resolve(gs, p) == if PathPasses(fs, p, gone) then 0 else Resolve(fs, p)
    {
      ResolveKeeps(fs, gs, gone, p);
    }
    ResolveChild(gs, to, name);
    NameFits(source, i);
  }

  lemma NameFits(source: seq<Entry>, i: nat)
    requires WellFormed(source) && i < |source|
    ensures |source[i].name| < 0x100 && source[i].inode != 0
  {
    KeyAt(source, i);
  }

  lemma MovedKeeps(fs: FileSystem, from: Word, source: seq<Entry>, to: Word, destination: seq<Entry>, i: nat,
    after: seq<Byte>)
    requires from != to && BlockOf(fs, from) == Serialize(source) && BlockOf(fs, to) == Serialize(destination)
    requires WellFormed(source) && Tiled(destination) && i < |source|
    requires IsNew(destination, source[i].name) && HasRoom(destination, |source[i].name|)
    requires FirstInode(Keys(source), source[i].inode) == i && (i > 0 || |source| == 1) && IsRemoval(source, i, after)
    ensures var extended := Extended(destination, source[i].inode, source[i].fileType, source[i].name);
            var gs := Moved(fs, from, to, after, extended);
            && Keeps(fs, gs, {(from, source[i].name)})
            && forall name :: NameBytes(name) == source[i].name ==> Lookup(gs, to, name) == source[i].inode
  {
    assert destination != [];
    hide Serialize, IsRemoval, FirstInode, LookupFrom, Find, Extended, HasRoom, Tiled, DistinctNames, Keys;
    var e := source[i];
    var extended := Extended(destination, e.inode, e.fileType, e.name);
    NameFits(source, i);
    DeletedKeeps(fs, from, source, i, after);
    ExtendedTiled(destination, e.inode, e.fileType, e.name);
    forall name: string
      ensures var n := NameBytes(name);
              && LookupFrom(Serialize(destination), 0, n) == Find(destination, n)
              && LookupFrom(Serialize(extended), 0, n) == Find(extended, n)
              && (Find(destination, n) != 0 ==> Find(extended, n) == Find(destination, n))
    {
      var n := NameBytes(name);
      WholeLookup(Serialize(destination), destination, n);
      WholeLookup(Serialize(extended), extended, n);
      FindExtended(destination, e.inode, e.fileType, e.name, n);
    }
    FindAdded(destination, e.inode, e.fileType, e.name);
    var deleted := fs.(blocks := fs.blocks[from := after]);
    var gs := Moved(fs, from, to, after, extended);
    forall d: Word, n | Lookup(fs, d, n) != 0
      ensures Stays(fs, gs, {(from, e.name)}, d, n)
    {
      assert Stays(fs, deleted, {(from, e.name)}, d, n);
    }
  }

  lemma FindAdded(entries: seq<Entry>, inode: Word, fileType: Byte, name: seq<Byte>)
    requires entries != [] && HasRoom(entries, |name|) && IsNew(entries, name)
    ensures Find(Extended(entries, inode, fileType, name), name) == inode
  {
    hide Extended, Find, HasRoom, KeyNamed, Keys;
    ExtendedKeys(entries, inode, fileType, name);
    PositionAppend(Keys(entries), Key(inode, fileType, name), name);
    NamedInode(Extended(entries, inode, fileType, name), name);
    NoneNamed(Keys(entries), name);
  }

  lemma {:induction false} NoneNamed(keys: seq<Key>, name: seq<Byte>)
    requires forall k :: 0 <= k < |keys| ==> keys[k].name != name
    ensures KeyNamed(keys, name).None?
  {
  }

  // ---------- a directory below itself ----------

  lemma {:induction false} PassesBelow(fs: FileSystem, inode: Word, a: seq<string>, name: string, b: seq<string>)
    requires Walk(fs, inode, a + [""]) != 0 && name != ""
    ensures Passes(fs, inode, a + ([name] + b), {(Walk(fs, inode, a + [""]), NameBytes(name))})
    decreases |a|
  {
    hide Lookup;
    var pieces := a + ([name] + b);
    if a == [] {
      assert pieces == [name] + b && [] + [""] == [""] && [""][1..] == [];
    } else {
      assert pieces[1..] == a[1..] + ([name] + b) && (a + [""])[1..] == a[1..] + [""];
      PassesBelow(fs, if a[0] == "" then inode else Lookup(fs, inode, a[0]), a[1..], name, b);
    }
  }

  /** Every path at or below `path/name` passes through the entry `name` of the directory `path/`. */
  lemma PathBelow(fs: FileSystem, path: string, name: string, rest: string)
    requires IsAbsolute(path) && IsComponent(name) && Resolve(fs, path + "/") != 0
    ensures PathPasses(fs, path + "/" + name + "/" + rest, {(Resolve(fs, path + "/"), NameBytes(name))})
  {
    hide Walk, Passes;
    var tail := path[1..];
    assert (path + "/")[1..] == tail + "/" + "";
    assert (path + "/" + name + "/" + rest)[1..] == tail + "/" + (name + "/" + rest);
    SplitJoin(tail, "");
    SplitJoin(tail, name + "/" + rest);
    SplitJoin(name, rest);
    FirstPiece(name, |name|);
    assert Split("") == [""] && Split(name) == [name];
    PassesBelow(fs, ROOT, Split(tail), name, Split(rest));
  }
}
