/** The local file system the file actions of kind/sftp.py act on, through
    `pathlib.Path`, `os` and `shutil`: a map from path to entry, where an
    entry is a regular file, a directory or a symbolic link. A path is in
    the map exactly when an entry sits at that literal path (the parent of
    every entry being a real directory); only a link in the last component
    of a path is followed. */
module LocalFs {
  import opened Common
  import opened PurePaths

  datatype Kind = File | Dir | Link(target: Path)

  /** An entry: its type and its modification time (the only attribute the
      actions compare). */
  datatype Node = Node(kind: Kind, mtime: int)

  type Fs = map<Path, Node>

  /** The exceptions the calls raise. */
  datatype FsError =
    | FileNotFound        // FileNotFoundError (ENOENT)
    | FileExists          // FileExistsError (EEXIST)
    | NotADirectory       // NotADirectoryError (ENOTDIR)
    | IsADirectory        // IsADirectoryError (EISDIR)
    | DirectoryNotEmpty   // OSError ENOTEMPTY
    | InvalidArgument     // OSError EINVAL: a directory renamed into itself
    | Busy                // OSError EBUSY: a root removed or renamed
    | SymlinkRefused      // OSError from shutil.rmtree on a symbolic link
    | DestinationExists   // shutil.Error from shutil.move: the target exists
    | MoveIntoItself      // shutil.Error from shutil.move: a directory into itself
    | SameFile            // shutil.SameFileError

  /** Linux follows at most this many links when it resolves a path. */
  const MaxSymlinks: nat := 40

  // ---------------------------------------------------------------------------
  // Looking paths up
  // ---------------------------------------------------------------------------

  /** The entry at `p` is a directory, not a link to one. */
  predicate IsRealDir(fs: Fs, p: Path)
  {
    p in fs && fs[p].kind.Dir?
  }

  /** `a` is `b` or one of its ancestors. */
  predicate Under(a: Path, b: Path)
  {
    a.root == b.root && a.parts <= b.parts
  }

  /** `p` with the parts of `q` appended. */
  function Extend(p: Path, q: Path): (r: Path)
    ensures r.root == p.root && r.parts == p.parts + q.parts
  {
    assert forall i :: 0 <= i < |p.parts + q.parts| ==>
             (p.parts + q.parts)[i] == if i < |p.parts| then p.parts[i] else q.parts[i - |p.parts|];
    PathValue(p.root, p.parts + q.parts)
  }

  /** Where a link at `link` with the stored target `target` points: an
      absolute target as it is, a relative one from the link's directory. */
  function LinkTarget(link: Path, target: Path): (r: Path)
  {
    if target.root != "" then target else Extend(Parent(link), target)
  }

  /** The entry `p` leads to after following at most `fuel` links: `None`
      when there is nothing there, the chain dangles or it is too long. */
  function Follow(fs: Fs, p: Path, fuel: nat): (r: Option<Path>)
    ensures r.Some? ==> r.value in fs && !fs[r.value].kind.Link?
    ensures r.Some? && p in fs && !fs[p].kind.Link? ==> r.value == p
    decreases fuel
  {
    if p !in fs then None
    else match fs[p].kind
      case Link(t) => if fuel == 0 then None else Follow(fs, LinkTarget(p, t), fuel - 1)
      case _ => Some(p)
  }

  function Resolve(fs: Fs, p: Path): (r: Option<Path>)
    ensures r.Some? ==> r.value in fs && !fs[r.value].kind.Link?
  {
    Follow(fs, p, MaxSymlinks)
  }

  /** `Path.exists()`, `os.path.exists`: follows links. */
  predicate Exists(fs: Fs, p: Path)
  {
    Resolve(fs, p).Some?
  }

  /** `Path.is_dir()`, `os.path.isdir`: follows links. */
  predicate IsDir(fs: Fs, p: Path)
  {
    Resolve(fs, p).Some? && fs[Resolve(fs, p).value].kind.Dir?
  }

  /** `Path.is_symlink()`, `os.path.islink`: does not follow. */
  predicate IsSymlink(fs: Fs, p: Path)
  {
    p in fs && fs[p].kind.Link?
  }

  /** `Path.stat()`: the entry `p` resolves to. */
  function Stat(fs: Fs, p: Path): (r: Result<Node, FsError>)
    ensures r.Ok? <==> Exists(fs, p)
  {
    match Resolve(fs, p)
    case None => Err(FileNotFound)
    case Some(q) => Ok(fs[q])
  }

  /** The error a call raises when the directory `p` should be in is missing
      or is not a directory. */
  function NoParent(fs: Fs, p: Path): (r: FsError)
  {
    if Exists(fs, Parent(p)) then NotADirectory else FileNotFound
  }

  /** `p` names a real directory that holds entries. */
  predicate HasChildren(fs: Fs, p: Path)
  {
    exists q :: q in fs && q != p && Under(p, q)
  }

  // ---------------------------------------------------------------------------
  // Changes
  // ---------------------------------------------------------------------------

  /** Every entry of `fs` is still in `fs'`, unchanged. */
  predicate Grows(fs: Fs, fs': Fs)
  {
    forall q :: q in fs ==> q in fs' && fs'[q] == fs[q]
  }

  /** Every entry of `fs` is still in `fs'` with the same type; times may
      differ and entries may be added. */
  predicate Keeps(fs: Fs, fs': Fs)
  {
    forall q :: q in fs ==> q in fs' && fs'[q].kind == fs[q].kind
  }

  lemma KeepsChain(fs: Fs, fs': Fs, fs'': Fs)
    requires Keeps(fs, fs') && Keeps(fs', fs'')
    ensures Keeps(fs, fs'')
  {
  }

  /** Same entries with the same types; times may differ. */
  predicate SameShape(fs: Fs, fs': Fs)
  {
    fs.Keys == fs'.Keys && forall q :: q in fs ==> fs'[q].kind == fs[q].kind
  }

  /** `os.mkdir(p)`. */
  function OsMkdir(fs: Fs, p: Path, now: int): (r: Result<Fs, FsError>)
    ensures r.Ok? ==> r.value == fs[p := Node(Dir, now)] && p !in fs
  {
    if p in fs then Err(FileExists)
    else if !IsRealDir(fs, Parent(p)) then Err(NoParent(fs, p))
    else Ok(fs[p := Node(Dir, now)])
  }

  /** `Path.mkdir(parents=parents, exist_ok=existOk)`: on a missing parent it
      creates the parents first (each with `exist_ok`) and tries again; an
      error other than a missing parent is forgiven when `existOk` holds and
      a directory is already there. A successful call leaves a directory at
      `p`, keeps every entry, and adds only directories on the way to `p`. */
  function Mkdir(fs: Fs, p: Path, parents: bool, existOk: bool, now: int): (r: Result<Fs, FsError>)
    ensures r.Ok? ==> IsDir(r.value, p) && Grows(fs, r.value)
    ensures r.Ok? ==> forall q :: q in r.value && q !in fs ==> r.value[q] == Node(Dir, now) && Under(q, p)
    ensures r.Ok? && !existOk ==> p !in fs
    decreases |p.parts|, if parents then 1 else 0
  {
    var first := OsMkdir(fs, p, now);
    if first.Ok? then first
    else if first.error == FileNotFound then
      if !parents || Parent(p) == p then Err(FileNotFound)
      else
        match Mkdir(fs, Parent(p), true, true, now)
        case Err(e) => Err(e)
        case Ok(fs1) => Mkdir(fs1, p, false, existOk, now)
    else if !existOk || !IsDir(fs, p) then first
    else Ok(fs)
  }

  /** `Path.touch()`: an existing file or directory only gets a new time
      (`os.utime` follows links); otherwise a new empty file is made. A
      dangling link is reported as a missing file. */
  function Touch(fs: Fs, p: Path, now: int): (r: Result<Fs, FsError>)
  {
    match Resolve(fs, p)
    case Some(q) => Ok(fs[q := fs[q].(mtime := now)])
    case None =>
      if p in fs then Err(FileNotFound)
      else if !IsRealDir(fs, Parent(p)) then Err(NoParent(fs, p))
      else Ok(fs[p := Node(File, now)])
  }

  /** `Path.unlink()` / `os.unlink`: removes a file or a link (not what it
      points to); a directory is refused. */
  function Unlink(fs: Fs, p: Path): (r: Result<Fs, FsError>)
  {
    if p !in fs then Err(FileNotFound)
    else if fs[p].kind.Dir? then Err(IsADirectory)
    else Ok(fs - {p})
  }

  /** `shutil.rmtree(p)`: refuses a link, needs a directory, and removes it
      with everything below it. */
  function RmTree(fs: Fs, p: Path): (r: Result<Fs, FsError>)
  {
    if IsSymlink(fs, p) then Err(SymlinkRefused)
    else if p !in fs then Err(FileNotFound)
    else if !fs[p].kind.Dir? then Err(NotADirectory)
    else if p.parts == [] then Err(Busy)
    else Ok(map q | q in fs && !Under(p, q) :: fs[q])
  }

  /** `Path.symlink_to(target)` / `os.symlink`: a new link at `p`. */
  function Symlink(fs: Fs, p: Path, target: Path, now: int): (r: Result<Fs, FsError>)
  {
    if p in fs then Err(FileExists)
    else if !IsRealDir(fs, Parent(p)) then Err(NoParent(fs, p))
    else Ok(fs[p := Node(Link(target), now)])
  }

  /** `q`, below `src`, moved to the same place below `dst`. */
  function Rebase(src: Path, dst: Path, q: Path): (r: Path)
    requires Under(src, q)
  {
    Extend(dst, PathValue("", q.parts[|src.parts|..]))
  }

  lemma RebaseInjective(src: Path, dst: Path, q: Path, q': Path)
    requires Under(src, q) && Under(src, q')
    requires Rebase(src, dst, q) == Rebase(src, dst, q')
    ensures q == q'
  {
    var n := |src.parts|;
    var m := |dst.parts|;
    assert Rebase(src, dst, q).parts[m..] == q.parts[n..];
    assert Rebase(src, dst, q').parts[m..] == q'.parts[n..];
    assert q.parts == q.parts[..n] + q.parts[n..];
    assert q'.parts == q'.parts[..n] + q'.parts[n..];
  }

  /** The entries below `src` (and `src` itself), placed below `dst`. */
  function Moved(fs: Fs, src: Path, dst: Path): (r: Fs)
    ensures forall q :: q in fs && Under(src, q) ==> Rebase(src, dst, q) in r && r[Rebase(src, dst, q)] == fs[q]
    ensures forall x :: x in r ==> Under(dst, x)
  {
    assert forall q, q' :: (q in fs && Under(src, q) && q' in fs && Under(src, q') &&
                            Rebase(src, dst, q) == Rebase(src, dst, q')) ==> q == q' by {
      forall q, q' | q in fs && Under(src, q) && q' in fs && Under(src, q') && Rebase(src, dst, q) == Rebase(src, dst, q')
        ensures q == q'
      {
        RebaseInjective(src, dst, q, q');
      }
    }
    map q | q in fs && Under(src, q) :: Rebase(src, dst, q) := fs[q]
  }

  /** The entries a rename keeps in place: all but `src`, what is below it,
      and the entry it replaces at `dst`. */
  function Outside(fs: Fs, src: Path, dst: Path): (r: Fs)
    ensures forall q :: q in r <==> q in fs && !Under(src, q) && q != dst
    ensures forall q :: q in r ==> r[q] == fs[q]
  {
    map q | q in fs && !Under(src, q) && q != dst :: fs[q]
  }

  /** `os.rename(src, dst)`: moves the entry at `src` (a link itself, not
      what it points to) with everything below it to `dst`, replacing a file
      or an empty directory there. */
  function OsRename(fs: Fs, src: Path, dst: Path): (r: Result<Fs, FsError>)
  {
    if src !in fs then Err(FileNotFound)
    else if !IsRealDir(fs, Parent(dst)) then Err(NoParent(fs, dst))
    else if src == dst then Ok(fs)
    else if src.parts == [] || dst.parts == [] then Err(Busy)
    else if fs[src].kind.Dir? && Under(src, dst) then Err(InvalidArgument)
    else if dst in fs && fs[src].kind.Dir? && !fs[dst].kind.Dir? then Err(NotADirectory)
    else if dst in fs && !fs[src].kind.Dir? && fs[dst].kind.Dir? then Err(IsADirectory)
    else if dst in fs && HasChildren(fs, dst) then Err(DirectoryNotEmpty)
    else Ok(Outside(fs, src, dst) + Moved(fs, src, dst))
  }

  /** `shutil.copy2(src, dst)`: copies the file `src` resolves to, with its
      time, to `dst` or, when `dst` is a directory, into it. Writing through
      a link at the target is reported as a missing file unless the link
      leads to a file. */
  function Copy2(fs: Fs, src: Path, dst: Path): (r: Result<Fs, FsError>)
  {
    var target := if IsDir(fs, dst) then Join(dst, Name(src)) else dst;
    match Resolve(fs, src)
    case None => Err(FileNotFound)
    case Some(s) =>
      if fs[s].kind.Dir? then Err(IsADirectory)
      else if Resolve(fs, target) == Some(s) then Err(SameFile)
      else
        match Resolve(fs, target)
        case Some(t) =>
          if fs[t].kind.Dir? then Err(IsADirectory) else Ok(fs[t := Node(File, fs[s].mtime)])
        case None =>
          if target in fs then Err(FileNotFound)
          else if !IsRealDir(fs, Parent(target)) then Err(NoParent(fs, target))
          else Ok(fs[target := Node(File, fs[s].mtime)])
  }

  /** `shutil.copytree(src, dst)`: `dst` and its missing parents are made
      (`os.makedirs`, which refuses an existing `dst`), then everything below
      the directory `src` resolves to is copied below it with its times, and
      `dst` gets the time of `src`. Links inside are copied as links. */
  function CopyTree(fs: Fs, src: Path, dst: Path, now: int): (r: Result<Fs, FsError>)
  {
    match Resolve(fs, src)
    case None => Err(FileNotFound)
    case Some(s) =>
      if !fs[s].kind.Dir? then Err(NotADirectory)
      else
        match Mkdir(fs, dst, true, false, now)
        case Err(e) => Err(e)
        case Ok(fs1) => Ok(fs1 + Moved(fs, s, dst))
  }

  /** `shutil.move(src, dst)`. Into an existing directory the entry goes
      under its own name, which must not exist there yet. It is renamed;
      when the rename fails, a link is recreated and removed, a directory is
      copied and removed (unless `dst` lies inside it), and a file is copied
      and unlinked. */
  function Move(fs: Fs, src: Path, dst: Path, now: int): (r: Result<Fs, FsError>)
  {
    if IsDir(fs, dst) && Exists(fs, src) && Resolve(fs, src) == Resolve(fs, dst) then OsRename(fs, src, dst)
    else
      var realDst := if IsDir(fs, dst) then Join(dst, Name(src)) else dst;
      if IsDir(fs, dst) && Exists(fs, realDst) then Err(DestinationExists)
      else
        match OsRename(fs, src, realDst)
        case Ok(fs') => Ok(fs')
        case Err(_) =>
          if IsSymlink(fs, src) then
            match Symlink(fs, realDst, fs[src].kind.target, now)
            case Err(e) => Err(e)
            case Ok(fs1) => Unlink(fs1, src)
          else if IsDir(fs, src) then
            if Under(src, dst) then Err(MoveIntoItself)
            else
              match CopyTree(fs, src, realDst, now)
              case Err(e) => Err(e)
              case Ok(fs1) => RmTree(fs1, src)
          else
            match Copy2(fs, src, realDst)
            case Err(e) => Err(e)
            case Ok(fs1) => Unlink(fs1, src)
  }

  // ---------------------------------------------------------------------------
  // Properties
  // ---------------------------------------------------------------------------

  /** Resolution reads only which entries exist and their types. */
  lemma {:induction false} FollowSameShape(fs: Fs, fs': Fs, p: Path, fuel: nat)
    requires SameShape(fs, fs')
    ensures Follow(fs, p, fuel) == Follow(fs', p, fuel)
    decreases fuel
  {
    if p in fs && fs[p].kind.Link? && fuel > 0 {
      FollowSameShape(fs, fs', LinkTarget(p, fs[p].kind.target), fuel - 1);
    }
  }

  /** Adding entries or changing times never changes where a path that
      resolves leads. */
  lemma {:induction false} FollowKeeps(fs: Fs, fs': Fs, p: Path, fuel: nat)
    requires Keeps(fs, fs') && Follow(fs, p, fuel).Some?
    ensures Follow(fs', p, fuel) == Follow(fs, p, fuel)
    decreases fuel
  {
    if fs[p].kind.Link? {
      FollowKeeps(fs, fs', LinkTarget(p, fs[p].kind.target), fuel - 1);
    }
  }

  /** So what exists stays, and a directory stays a directory. */
  lemma ResolveKept(fs: Fs, fs': Fs, p: Path)
    requires Keeps(fs, fs') && Exists(fs, p)
    ensures Exists(fs', p) && (IsDir(fs', p) <==> IsDir(fs, p))
  {
    FollowKeeps(fs, fs', p, MaxSymlinks);
  }

  /** A successful `touch` leaves something at `p`; it creates at most a new
      file at `p`, and every other entry keeps its type. */
  lemma TouchMeaning(fs: Fs, p: Path, now: int)
    requires Touch(fs, p, now).Ok?
    ensures var fs' := Touch(fs, p, now).value;
            && Exists(fs', p)
            && (forall q :: q in fs ==> q in fs' && fs'[q].kind == fs[q].kind)
            && (forall q :: q in fs' && q !in fs ==> q == p && fs'[q] == Node(File, now))
            && (!Exists(fs, p) ==> IsSymlink(fs', p) || fs'[p].kind.File?)
  {
    var fs' := Touch(fs, p, now).value;
    match Resolve(fs, p) {
      case Some(q) =>
        assert SameShape(fs, fs');
        FollowSameShape(fs, fs', p, MaxSymlinks);
      case None =>
    }
  }

  /** A successful `unlink` removes exactly the entry at `p`, which was not a
      directory; a link goes and what it points to stays. */
  lemma UnlinkMeaning(fs: Fs, p: Path)
    ensures Unlink(fs, p).Ok? <==> p in fs && !fs[p].kind.Dir?
    ensures Unlink(fs, p).Ok? ==>
              var fs' := Unlink(fs, p).value;
              p !in fs' && forall q :: q in fs && q != p ==> q in fs' && fs'[q] == fs[q]
  {
  }

  /** A successful `rmtree` removes the directory `p` and everything below
      it and keeps every other entry; it never succeeds on a link. */
  lemma RmTreeMeaning(fs: Fs, p: Path)
    ensures RmTree(fs, p).Ok? <==> IsRealDir(fs, p) && p.parts != []
    ensures RmTree(fs, p).Ok? ==>
              var fs' := RmTree(fs, p).value;
              && (forall q :: q in fs' ==> !Under(p, q))
              && (forall q :: q in fs && !Under(p, q) ==> q in fs' && fs'[q] == fs[q])
    ensures IsSymlink(fs, p) ==> RmTree(fs, p) == Err(SymlinkRefused)
  {
  }

  /** A successful rename to another path leaves nothing at `src` (when
      neither path is above the other), and puts the old entry of `src` at
      `dst`, with everything that was below it below `dst`. */
  lemma OsRenameMeaning(fs: Fs, src: Path, dst: Path)
    requires OsRename(fs, src, dst).Ok? && src != dst
    ensures var fs' := OsRename(fs, src, dst).value;
            && dst in fs' && fs'[dst] == fs[src]
            && (forall q :: q in fs && Under(src, q) ==> Rebase(src, dst, q) in fs' && fs'[Rebase(src, dst, q)] == fs[q])
            && (!Under(src, dst) && !Under(dst, src) ==> src !in fs')
            && (forall q :: q in fs && !Under(src, q) && !Under(dst, q) ==> q in fs' && fs'[q] == fs[q])
  {
    var kept := Outside(fs, src, dst);
    var moved := Moved(fs, src, dst);
    assert OsRename(fs, src, dst).value == kept + moved;
    assert Under(src, src);
    assert Rebase(src, dst, src) == dst;
    forall q | q in fs && !Under(src, q) && !Under(dst, q)
      ensures q in kept + moved && (kept + moved)[q] == fs[q]
    {
      assert q !in moved;
    }
    if !Under(src, dst) && !Under(dst, src) {
      assert src !in kept;
      assert src !in moved;
    }
  }

  /** A successful rename leaves the directory it renamed into in place,
      unless the source was above the target. */
  lemma OsRenameKeepsParent(fs: Fs, src: Path, dst: Path)
    requires OsRename(fs, src, dst).Ok? && src != dst && !Under(src, dst)
    ensures IsDir(OsRename(fs, src, dst).value, Parent(dst))
  {
    var fs' := OsRename(fs, src, dst).value;
    var up := Parent(dst);
    assert fs' == Outside(fs, src, dst) + Moved(fs, src, dst);
    assert up != dst && !Under(dst, up);
    assert up !in Moved(fs, src, dst);
    assert fs'[up] == fs[up];
    assert Resolve(fs', up) == Some(up);
  }

  /** A successful `copy2` leaves a file with the source's time at the
      target and changes no other path. */
  lemma Copy2Meaning(fs: Fs, src: Path, dst: Path)
    requires Copy2(fs, src, dst).Ok?
    ensures var fs' := Copy2(fs, src, dst).value;
            var target := if IsDir(fs, dst) then Join(dst, Name(src)) else dst;
            && Exists(fs, src) && !IsDir(fs, src)
            && Exists(fs', target)
            && fs'[Resolve(fs', target).value] == Node(File, fs[Resolve(fs, src).value].mtime)
            && forall q :: q in fs && q != Resolve(fs', target).value ==> q in fs' && fs'[q] == fs[q]
  {
    var fs' := Copy2(fs, src, dst).value;
    var target := if IsDir(fs, dst) then Join(dst, Name(src)) else dst;
    match Resolve(fs, target) {
      case Some(t) =>
        assert SameShape(fs, fs');
        FollowSameShape(fs, fs', target, MaxSymlinks);
      case None =>
    }
  }

  /** A successful `copytree` keeps every entry, puts a directory at `dst`
      and copies every entry below the source below `dst`. */
  lemma CopyTreeMeaning(fs: Fs, src: Path, dst: Path, now: int)
    requires CopyTree(fs, src, dst, now).Ok?
    ensures var fs' := CopyTree(fs, src, dst, now).value;
            var s := Resolve(fs, src).value;
            && IsDir(fs, src) && dst !in fs
            && IsRealDir(fs', dst)
            && (forall q :: q in fs && Under(s, q) ==> Rebase(s, dst, q) in fs' && fs'[Rebase(s, dst, q)] == fs[q])
            && (forall q :: q in fs && !Under(dst, q) ==> q in fs' && fs'[q] == fs[q])
  {
    var s := Resolve(fs, src).value;
    assert Under(s, s);
    assert Rebase(s, dst, s) == dst;
  }

  /** What is above a child of `dir` is the child itself or above `dir`. */
  lemma UnderChild(a: Path, dir: Path, x: string)
    requires IsPart(x)
    ensures Under(a, Join(dir, x)) ==> a == Join(dir, x) || Under(a, dir)
  {
    JoinPart(dir, x);
    var child := Join(dir, x);
    if Under(a, child) {
      if |a.parts| == |child.parts| {
        assert a.parts == child.parts;
      } else {
        assert a.parts == dir.parts[..|a.parts|];
      }
    }
  }

  /** `shutil.move` into a directory refuses a name already taken there,
      and a source that is not there raises `FileNotFoundError` (neither
      the rename nor the fallbacks find it). */
  lemma MoveMeaning(fs: Fs, src: Path, dst: Path, now: int)
    ensures var realDst := if IsDir(fs, dst) then Join(dst, Name(src)) else dst;
            IsDir(fs, dst) && Exists(fs, realDst) && Resolve(fs, src) != Resolve(fs, dst) ==>
              Move(fs, src, dst, now) == Err(DestinationExists)
    ensures var realDst := if IsDir(fs, dst) then Join(dst, Name(src)) else dst;
            src !in fs && !(IsDir(fs, dst) && Exists(fs, realDst)) ==>
              Move(fs, src, dst, now) == Err(FileNotFound)
  {
  }

  /** Moving an entry that is not above the directory `dir` to a free name
      in it is `os.rename`: the entry and everything below it go below the
      new name, every entry outside both trees stays, and nothing is left at
      the old path unless the new one is above it. */
  lemma MoveIntoDirectory(fs: Fs, src: Path, dir: Path, now: int)
    requires src in fs && src.parts != [] && IsRealDir(fs, dir)
    requires !Under(src, dir) && Resolve(fs, src) != Some(dir)
    requires Join(dir, Name(src)) !in fs
    ensures var dest := Join(dir, Name(src));
            var r := Move(fs, src, dir, now);
            && r.Ok? && r == OsRename(fs, src, dest)
            && dest in r.value && r.value[dest] == fs[src]
            && (forall q :: q in fs && Under(src, q) ==> Rebase(src, dest, q) in r.value && r.value[Rebase(src, dest, q)] == fs[q])
            && (forall q :: q in fs && !Under(src, q) && !Under(dest, q) ==> q in r.value && r.value[q] == fs[q])
            && (!Under(dest, src) ==> src !in r.value)
  {
    var dest := Join(dir, Name(src));
    JoinPart(dir, Name(src));
    assert Resolve(fs, dir) == Some(dir);
    UnderChild(src, dir, Name(src));
    assert OsRename(fs, src, dest).Ok?;
    OsRenameMeaning(fs, src, dest);
  }
}
