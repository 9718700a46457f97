/** The file actions of kind/sftp.py: paste, remove, rename and the creation
    of files and directories. Every one of them works on the LOCAL file
    system through `pathlib`, `os` and `shutil`, whatever the candidate under
    the cursor is; a candidate of the sftp source carries a remote path
    object, which is a pure path with its own `exists`, `stat` and `is_dir`
    (answered by the server) but no `unlink` or `rename`. The answers the
    user types and the confirmations are parameters. An action that raises
    stops where it is: what it changed before the exception stays. */
module FileActions {
  import opened Common
  import opened PurePaths
  import opened LocalFs
  import Remote
  import SftpPaths

  /** A candidate's `action__path`: a local path, or a remote path made by
      the sftp source. */
  datatype Entry = LocalPath(path: Path) | RemotePath(remote: SftpPaths.SftpPath)

  /** `str(action__path)` */
  function EntryText(e: Entry): (r: string)
  {
    match e
    case LocalPath(p) => Str(p)
    case RemotePath(r) => SftpPaths.Str(r)
  }

  /** `Path(action__path)`: a remote path is read as a pure path made from
      its text. */
  function EntryPath(e: Entry): (r: Path)
  {
    match e
    case LocalPath(p) => p
    case RemotePath(r) => Parse(r.path)
  }

  /** The candidate under the cursor. */
  datatype Cursor = Cursor(entry: Entry, isOpenedTree: bool, isRoot: bool)

  /** The directory an action at the cursor works in: the candidate itself
      when it is an opened tree or the root, else its parent. */
  function CwdOf(c: Cursor): (r: string)
  {
    if c.isOpenedTree || c.isRoot then EntryText(c.entry) else Str(Parent(EntryPath(c.entry)))
  }

  /** `ClipboardAction` */
  datatype ClipboardAction = MOVE | COPY | LINK

  /** What a user answers to one overwrite prompt: the number of the button
      pressed (1 Force, 2 No, 3 Rename, 4 Time, 5 Underbar; 0 when the prompt
      is dismissed) and, for Rename, the new path typed. */
  datatype Answer = Answer(choice: int, typed: string)

  /** The exceptions an action ends with. */
  datatype Error =
    | FsFailure(fsError: FsError)
    | ServerFailure(serverError: Remote.Error)
    | NoSuchMethod     // AttributeError: a remote path has no `unlink` or `rename`
    | EmptyName        // IndexError: `name[-1]` of an empty name
    | UnboundFilename  // UnboundLocalError: `filename` read after a loop over no names

  /** The file system an action leaves, and the exception it ends with. */
  datatype Run = Run(fs: Fs, failure: Option<Error>)

  /** `Path('')`, the empty relative path. */
  const EmptyPath: Path := PathValue("", [])

  /** The run of one call that either succeeds or raises without changing
      anything. */
  function Lift(r: Result<Fs, FsError>, fs: Fs): (run: Run)
    ensures r.Ok? ==> run == Run(r.value, None)
    ensures r.Err? ==> run == Run(fs, Some(FsFailure(r.error)))
  {
    match r
    case Ok(fs') => Run(fs', None)
    case Err(e) => Run(fs, Some(FsFailure(e)))
  }

  /** ASCII's part of `str.lower()`. */
  function LowerChar(c: char): (r: char)
  {
    if 'A' <= c <= 'Z' then (c as int + 32) as char else c
  }

  function Lower(s: string): (r: string)
    ensures |r| == |s| && forall i :: 0 <= i < |s| ==> r[i] == LowerChar(s[i])
  {
    seq(|s|, i requires 0 <= i < |s| => LowerChar(s[i]))
  }

  // ---------------------------------------------------------------------------
  // Paste
  // ---------------------------------------------------------------------------

  /** The file system, an object whose state the actions replace. */
  class Disk {
    var fs: Fs

    constructor(fs: Fs)
      ensures this.fs == fs
    {
      this.fs := fs;
    }
  }

  /** The view's clipboard: the action it was filled for and its candidates. */
  class Clipboard {
    var action: ClipboardAction
    var candidates: seq<Entry>

    constructor(action: ClipboardAction, candidates: seq<Entry>)
      ensures this.action == action && this.candidates == candidates
    {
      this.action := action;
      this.candidates := candidates;
    }
  }

  /** `check_overwrite(view, dest, src)`: where to put `src` when `dest`
      exists, `Path('')` meaning "skip". Both must exist. Time picks `src`
      itself when `dest` is older. */
  function CheckOverwrite(fs: Fs, dest: Path, src: Path, answer: Answer): (r: Path)
  {
    if !Exists(fs, src) || !Exists(fs, dest) then EmptyPath
    else if answer.choice == 1 then dest
    else if answer.choice == 2 then EmptyPath
    else if answer.choice == 3 then Parse(answer.typed)
    else if answer.choice == 4 && Stat(fs, dest).value.mtime < Stat(fs, src).value.mtime then src
    else if answer.choice == 5 then Parse(Str(dest) + "_")
    else EmptyPath
  }

  /** What a paste other than a move does to an existing destination first:
      `rmtree` of a directory that is not a link, `unlink` of anything else. */
  function Clear(fs: Fs, dest: Path): (r: Result<Fs, FsError>)
  {
    if !IsSymlink(fs, dest) && IsDir(fs, dest) then RmTree(fs, dest) else Unlink(fs, dest)
  }

  /** The transfer itself: a copy (`copytree` for a directory, `copy2` for
      anything else), a move into `cwd` (`shutil.move`), or a new link at
      `dest` to `src`. */
  function Transfer(fs: Fs, action: ClipboardAction, src: Path, dest: Path, cwd: string, now: int): (r: Result<Fs, FsError>)
  {
    match action
    case COPY => if IsDir(fs, src) then CopyTree(fs, src, dest, now) else Copy2(fs, src, dest)
    case MOVE => Move(fs, src, Parse(cwd), now)
    case LINK => Symlink(fs, dest, src, now)
  }

  /** One pass of the loop of `_paste` over a clipboard candidate. A remote
      candidate only has its `exists` asked, which never answers true, so
      it is skipped unless the server request fails. */
  function PasteItem(fs: Fs, action: ClipboardAction, cwd: string, item: Entry, answer: Answer,
                     net: Remote.Network, now: int): (r: Run)
  {
    match item
    case RemotePath(sp) =>
      (match SftpPaths.Exists(sp, net)
       case Err(e) => Run(fs, Some(ServerFailure(e)))
       case Ok(_) => Run(fs, None))
    case LocalPath(src) =>
      var dest0 := Join(Parse(cwd), Name(src));
      var dest := if Exists(fs, dest0) then CheckOverwrite(fs, dest0, src, answer) else dest0;
      if Exists(fs, dest0) && dest == EmptyPath then Run(fs, None)
      else if !Exists(fs, src) || src == dest then Run(fs, None)
      else
        var cleared := if Exists(fs, dest) && action != MOVE then Clear(fs, dest) else Ok(fs);
        match cleared
        case Err(e) => Run(fs, Some(FsFailure(e)))
        case Ok(fs1) => Lift(Transfer(fs1, action, src, dest, cwd, now), fs1)
  }

  /** The loop of `_paste` over `items`, the i-th answered by `answers(i)`,
      stopping at the first exception. */
  function PasteItems(fs: Fs, action: ClipboardAction, cwd: string, items: seq<Entry>,
                      answers: nat -> Answer, net: Remote.Network, now: int): (r: Run)
    decreases |items|
  {
    if items == [] then Run(fs, None)
    else
      var before := PasteItems(fs, action, cwd, items[..|items| - 1], answers, net, now);
      if before.failure.Some? then before
      else PasteItem(before.fs, action, cwd, items[|items| - 1], answers(|items| - 1), net, now)
  }

  /** Once a prefix of the clipboard fails, the paste ends there. */
  lemma {:induction false} PasteItemsStopsAtFailure(fs: Fs, action: ClipboardAction, cwd: string, items: seq<Entry>,
                                                    answers: nat -> Answer, net: Remote.Network, now: int, i: nat)
    requires i <= |items|
    requires PasteItems(fs, action, cwd, items[..i], answers, net, now).failure.Some?
    ensures PasteItems(fs, action, cwd, items, answers, net, now) == PasteItems(fs, action, cwd, items[..i], answers, net, now)
    decreases |items|
  {
    if i < |items| {
      var front := items[..|items| - 1];
      assert front[..i] == items[..i];
      PasteItemsStopsAtFailure(fs, action, cwd, front, answers, net, now, i);
    } else {
      assert items[..i] == items;
    }
  }

  /** The paste of one more candidate is the paste of the ones before it,
      followed by that candidate unless an earlier one raised. */
  lemma PasteItemsStep(fs: Fs, action: ClipboardAction, cwd: string, items: seq<Entry>,
                       answers: nat -> Answer, net: Remote.Network, now: int, i: nat)
    requires i < |items|
    ensures var before := PasteItems(fs, action, cwd, items[..i], answers, net, now);
            PasteItems(fs, action, cwd, items[..i + 1], answers, net, now) ==
              if before.failure.Some? then before
              else PasteItem(before.fs, action, cwd, items[i], answers(i), net, now)
  {
    assert items[..i + 1][..i] == items[..i];
  }

  /** One candidate of `_paste`, step by step on the disk. */
  method PasteOne(disk: Disk, action: ClipboardAction, cwd: string, item: Entry, answer: Answer,
                  net: Remote.Network, now: int) returns (failure: Option<Error>)
    modifies disk
    ensures Run(disk.fs, failure) == PasteItem(old(disk.fs), action, cwd, item, answer, net, now)
  {
    match item {
      case RemotePath(sp) =>
        var present := SftpPaths.Exists(sp, net);
        if present.Err? {
          return Some(ServerFailure(present.error));
        }
        return None;
      case LocalPath(src) =>
        var dest := Join(Parse(cwd), Name(src));
        if Exists(disk.fs, dest) {
          var overwrite := CheckOverwrite(disk.fs, dest, src, answer);
          if overwrite == EmptyPath {
            return None;
          }
          dest := overwrite;
        }
        if !Exists(disk.fs, src) || src == dest {
          return None;
        }
        if Exists(disk.fs, dest) && action != MOVE {
          // `str(dest)` parses back to `dest` (PurePaths.ParseStr)
          var cleared := Clear(disk.fs, dest);
          if cleared.Err? {
            return Some(FsFailure(cleared.error));
          }
          disk.fs := cleared.value;
        }
        var transferred := Transfer(disk.fs, action, src, dest, cwd, now);
        if transferred.Err? {
          return Some(FsFailure(transferred.error));
        }
        disk.fs := transferred.value;
        return None;
    }
  }

  /** `_paste`: every clipboard candidate in turn, into the directory at the
      cursor; after a move that raised nothing the clipboard is emptied. */
  method Paste(disk: Disk, clipboard: Clipboard, cursor: Option<Cursor>, answers: nat -> Answer,
               net: Remote.Network, now: int) returns (failure: Option<Error>)
    modifies disk, clipboard
    ensures cursor.None? ==>
              disk.fs == old(disk.fs) && clipboard.candidates == old(clipboard.candidates) && failure.None?
    ensures cursor.Some? ==>
              var run := PasteItems(old(disk.fs), old(clipboard.action), CwdOf(cursor.value),
                                    old(clipboard.candidates), answers, net, now);
              && disk.fs == run.fs && failure == run.failure
              && clipboard.candidates ==
                   if failure.None? && old(clipboard.action) == MOVE then [] else old(clipboard.candidates)
    ensures clipboard.action == old(clipboard.action)
  {
    if cursor.None? {
      return None;
    }
    var cwd := CwdOf(cursor.value);
    var action := clipboard.action;
    var items := clipboard.candidates;
    var i := 0;
    while i < |items|
      invariant 0 <= i <= |items|
      invariant clipboard.candidates == items && clipboard.action == action
      invariant PasteItems(old(disk.fs), action, cwd, items[..i], answers, net, now) == Run(disk.fs, None)
    {
      PasteItemsStep(old(disk.fs), action, cwd, items, answers, net, now, i);
      failure := PasteOne(disk, action, cwd, items[i], answers(i), net, now);
      if failure.Some? {
        PasteItemsStopsAtFailure(old(disk.fs), action, cwd, items, answers, net, now, i + 1);
        return failure;
      }
      i := i + 1;
    }
    assert items[..i] == items;
    if action == MOVE {
      clipboard.candidates := [];
    }
    return None;
  }

  // ---------------------------------------------------------------------------
  // Remove
  // ---------------------------------------------------------------------------

  /** `context.args[0] == 'force'` */
  predicate Forced(args: seq<string>)
  {
    args != [] && args[0] == "force"
  }

  /** One target of `_remove`: `rmtree` when it is a directory, else
      `unlink`. A remote target asks the server whether it is a directory;
      one that is removes the local tree at its text, one that is not has no
      `unlink`. */
  function RemoveEntry(fs: Fs, target: Entry, net: Remote.Network): (r: Run)
  {
    match target
    case LocalPath(p) => Lift(if IsDir(fs, p) then RmTree(fs, p) else Unlink(fs, p), fs)
    case RemotePath(sp) =>
      match SftpPaths.IsDir(sp, net)
      case Err(e) => Run(fs, Some(ServerFailure(e)))
      case Ok(isDir) => if isDir then Lift(RmTree(fs, Parse(sp.path)), fs) else Run(fs, Some(NoSuchMethod))
  }

  /** The loop of `_remove`, stopping at the first exception. */
  function RemoveItems(fs: Fs, targets: seq<Entry>, net: Remote.Network): (r: Run)
    decreases |targets|
  {
    if targets == [] then Run(fs, None)
    else
      var before := RemoveItems(fs, targets[..|targets| - 1], net);
      if before.failure.Some? then before
      else RemoveEntry(before.fs, targets[|targets| - 1], net)
  }

  /** `_remove`: nothing without targets, or when the user does not confirm
      and the first argument is not `force`. */
  function RemoveAll(fs: Fs, targets: seq<Entry>, args: seq<string>, confirmed: bool, net: Remote.Network): (r: Run)
  {
    if targets == [] || (!Forced(args) && !confirmed) then Run(fs, None)
    else RemoveItems(fs, targets, net)
  }

  lemma {:induction false} RemoveItemsStopsAtFailure(fs: Fs, targets: seq<Entry>, net: Remote.Network, i: nat)
    requires i <= |targets|
    requires RemoveItems(fs, targets[..i], net).failure.Some?
    ensures RemoveItems(fs, targets, net) == RemoveItems(fs, targets[..i], net)
    decreases |targets|
  {
    if i < |targets| {
      var front := targets[..|targets| - 1];
      assert front[..i] == targets[..i];
      RemoveItemsStopsAtFailure(fs, front, net, i);
    } else {
      assert targets[..i] == targets;
    }
  }

  method RemoveOne(disk: Disk, target: Entry, net: Remote.Network) returns (failure: Option<Error>)
    modifies disk
    ensures Run(disk.fs, failure) == RemoveEntry(old(disk.fs), target, net)
  {
    match target {
      case LocalPath(p) =>
        var removed := if IsDir(disk.fs, p) then RmTree(disk.fs, p) else Unlink(disk.fs, p);
        if removed.Err? {
          return Some(FsFailure(removed.error));
        }
        disk.fs := removed.value;
        return None;
      case RemotePath(sp) =>
        var isDir := SftpPaths.IsDir(sp, net);
        if isDir.Err? {
          return Some(ServerFailure(isDir.error));
        }
        if !isDir.value {
          return Some(NoSuchMethod);
        }
        var removed := RmTree(disk.fs, Parse(sp.path));
        if removed.Err? {
          return Some(FsFailure(removed.error));
        }
        disk.fs := removed.value;
        return None;
    }
  }

  /** `_remove` */
  method Remove(disk: Disk, targets: seq<Entry>, args: seq<string>, confirmed: bool, net: Remote.Network)
    returns (failure: Option<Error>)
    modifies disk
    ensures Run(disk.fs, failure) == RemoveAll(old(disk.fs), targets, args, confirmed, net)
  {
    if targets == [] {
      return None;
    }
    var force := args != [] && args[0] == "force";
    if !force && !confirmed {
      return None;
    }
    var i := 0;
    while i < |targets|
      invariant 0 <= i <= |targets|
      invariant RemoveItems(old(disk.fs), targets[..i], net) == Run(disk.fs, None)
    {
      assert targets[..i + 1][..i] == targets[..i];
      failure := RemoveOne(disk, targets[i], net);
      if failure.Some? {
        RemoveItemsStopsAtFailure(old(disk.fs), targets, net, i + 1);
        return failure;
      }
      i := i + 1;
    }
    assert targets[..i] == targets;
    return None;
  }

  // ---------------------------------------------------------------------------
  // Rename
  // ---------------------------------------------------------------------------

  /** `_rename` with the name `typed` answered for the target (`cwd` is the
      view's directory). More than one target opens the ex-rename buffer and
      changes nothing here. The new path is refused when it exists, unless
      its text equals the old one's but for the case of ASCII letters; its
      missing parent is created first. */
  function RenameTarget(fs: Fs, targets: seq<Entry>, cwd: string, typed: string, now: int): (r: Run)
  {
    if |targets| != 1 || typed == "" then Run(fs, None)
    else
      var target := targets[0];
      var newPath := Join(Parse(cwd), typed);
      if newPath == EntryPath(target) then Run(fs, None)
      else if Lower(Str(newPath)) != Lower(EntryText(target)) && Exists(fs, newPath) then Run(fs, None)
      else
        var made := if !Exists(fs, Parent(newPath)) then Mkdir(fs, Parent(newPath), true, false, now) else Ok(fs);
        match made
        case Err(e) => Run(fs, Some(FsFailure(e)))
        case Ok(fs1) =>
          match target
          case LocalPath(p) => Lift(OsRename(fs1, p, newPath), fs1)
          case RemotePath(_) => Run(fs1, Some(NoSuchMethod))
  }

  /** `_rename` */
  method Rename(disk: Disk, targets: seq<Entry>, cwd: string, typed: string, now: int)
    returns (failure: Option<Error>)
    modifies disk
    ensures Run(disk.fs, failure) == RenameTarget(old(disk.fs), targets, cwd, typed, now)
  {
    if |targets| > 1 || targets == [] || typed == "" {
      return None;
    }
    var target := targets[0];
    var newPath := Join(Parse(cwd), typed);
    if newPath == EntryPath(target) {
      return None;
    }
    if Lower(Str(newPath)) != Lower(EntryText(target)) && Exists(disk.fs, newPath) {
      return None;
    }
    if !Exists(disk.fs, Parent(newPath)) {
      var made := Mkdir(disk.fs, Parent(newPath), true, false, now);
      if made.Err? {
        return Some(FsFailure(made.error));
      }
      disk.fs := made.value;
    }
    match target {
      case LocalPath(p) =>
        var result := OsRename(disk.fs, p, newPath);
        if result.Err? {
          return Some(FsFailure(result.error));
        }
        disk.fs := result.value;
        return None;
      case RemotePath(_) =>
        return Some(NoSuchMethod);
    }
  }

  // ---------------------------------------------------------------------------
  // New directory, new file, new files
  // ---------------------------------------------------------------------------

  /** `_new_directory` with the name `typed`: a new directory and its
      missing parents, unless the path exists. */
  function NewDirectoryAt(fs: Fs, cursor: Option<Cursor>, typed: string, now: int): (r: Run)
  {
    if cursor.None? || typed == "" then Run(fs, None)
    else
      var filename := Join(Parse(CwdOf(cursor.value)), typed);
      if Exists(fs, filename) then Run(fs, None)
      else Lift(Mkdir(fs, filename, true, false, now), fs)
  }

  /** `_new_file` with the name `typed`: a name ending in a slash makes a
      directory, any other an empty file after its missing parents. */
  function NewFileAt(fs: Fs, cursor: Option<Cursor>, typed: string, now: int): (r: Run)
  {
    if cursor.None? || typed == "" then Run(fs, None)
    else
      var filename := Join(Parse(CwdOf(cursor.value)), typed);
      if Exists(fs, filename) then Run(fs, None)
      else if typed[|typed| - 1] == '/' then Lift(Mkdir(fs, filename, true, false, now), fs)
      else
        match Mkdir(fs, Parent(filename), true, true, now)
        case Err(e) => Run(fs, Some(FsFailure(e)))
        case Ok(fs1) => Lift(Touch(fs1, filename, now), fs1)
  }

  method NewDirectory(disk: Disk, cursor: Option<Cursor>, typed: string, now: int) returns (failure: Option<Error>)
    modifies disk
    ensures Run(disk.fs, failure) == NewDirectoryAt(old(disk.fs), cursor, typed, now)
  {
    if cursor.None? || typed == "" {
      return None;
    }
    var filename := Join(Parse(CwdOf(cursor.value)), typed);
    if Exists(disk.fs, filename) {
      return None;
    }
    var made := Mkdir(disk.fs, filename, true, false, now);
    if made.Err? {
      return Some(FsFailure(made.error));
    }
    disk.fs := made.value;
    return None;
  }

  method NewFile(disk: Disk, cursor: Option<Cursor>, typed: string, now: int) returns (failure: Option<Error>)
    modifies disk
    ensures Run(disk.fs, failure) == NewFileAt(old(disk.fs), cursor, typed, now)
  {
    if cursor.None? || typed == "" {
      return None;
    }
    var isDir := typed[|typed| - 1] == '/';
    var filename := Join(Parse(CwdOf(cursor.value)), typed);
    if Exists(disk.fs, filename) {
      return None;
    }
    if isDir {
      var made := Mkdir(disk.fs, filename, true, false, now);
      if made.Err? {
        return Some(FsFailure(made.error));
      }
      disk.fs := made.value;
    } else {
      var made := Mkdir(disk.fs, Parent(filename), true, true, now);
      if made.Err? {
        return Some(FsFailure(made.error));
      }
      disk.fs := made.value;
      var touched := Touch(disk.fs, filename, now);
      if touched.Err? {
        return Some(FsFailure(touched.error));
      }
      disk.fs := touched.value;
    }
    return None;
  }

  /** One name of `_new_multiple_files`: an empty name raises, an existing
      path is skipped, a name ending in a slash makes a directory, any other
      an empty file after its parent (made when it does not exist). */
  function CreateOne(fs: Fs, cwd: string, name: string, now: int): (r: Run)
  {
    if name == "" then Run(fs, Some(EmptyName))
    else
      var filename := Join(Parse(cwd), name);
      if Exists(fs, filename) then Run(fs, None)
      else if name[|name| - 1] == '/' then Lift(Mkdir(fs, filename, true, false, now), fs)
      else
        var made := if !Exists(fs, Parent(filename)) then Mkdir(fs, Parent(filename), true, false, now) else Ok(fs);
        match made
        case Err(e) => Run(fs, Some(FsFailure(e)))
        case Ok(fs1) => Lift(Touch(fs1, filename, now), fs1)
  }

  /** The loop of `_new_multiple_files`, stopping at the first exception. */
  function CreateNames(fs: Fs, cwd: string, names: seq<string>, now: int): (r: Run)
    decreases |names|
  {
    if names == [] then Run(fs, None)
    else
      var before := CreateNames(fs, cwd, names[..|names| - 1], now);
      if before.failure.Some? then before
      else CreateOne(before.fs, cwd, names[|names| - 1], now)
  }

  /** `_new_multiple_files` with the text `input` typed and `names` its
      shell-style split. Nothing happens without a cursor or on empty input;
      when the split yields no names, the search for the last file made reads
      a name never bound. */
  function NewMultipleFilesAt(fs: Fs, cursor: Option<Cursor>, input: string, names: seq<string>, now: int): (r: Run)
  {
    if cursor.None? || input == "" then Run(fs, None)
    else
      var run := CreateNames(fs, CwdOf(cursor.value), names, now);
      if run.failure.None? && names == [] then Run(run.fs, Some(UnboundFilename)) else run
  }

  lemma {:induction false} CreateNamesStopsAtFailure(fs: Fs, cwd: string, names: seq<string>, now: int, i: nat)
    requires i <= |names|
    requires CreateNames(fs, cwd, names[..i], now).failure.Some?
    ensures CreateNames(fs, cwd, names, now) == CreateNames(fs, cwd, names[..i], now)
    decreases |names|
  {
    if i < |names| {
      var front := names[..|names| - 1];
      assert front[..i] == names[..i];
      CreateNamesStopsAtFailure(fs, cwd, front, now, i);
    } else {
      assert names[..i] == names;
    }
  }

  method CreateName(disk: Disk, cwd: string, name: string, now: int) returns (failure: Option<Error>)
    modifies disk
    ensures Run(disk.fs, failure) == CreateOne(old(disk.fs), cwd, name, now)
  {
    if name == "" {
      return Some(EmptyName);
    }
    var isDir := name[|name| - 1] == '/';
    var filename := Join(Parse(cwd), name);
    if Exists(disk.fs, filename) {
      return None;
    }
    if isDir {
      var made := Mkdir(disk.fs, filename, true, false, now);
      if made.Err? {
        return Some(FsFailure(made.error));
      }
      disk.fs := made.value;
    } else {
      if !Exists(disk.fs, Parent(filename)) {
        var made := Mkdir(disk.fs, Parent(filename), true, false, now);
        if made.Err? {
          return Some(FsFailure(made.error));
        }
        disk.fs := made.value;
      }
      var touched := Touch(disk.fs, filename, now);
      if touched.Err? {
        return Some(FsFailure(touched.error));
      }
      disk.fs := touched.value;
    }
    return None;
  }

  /** `_new_multiple_files` */
  method NewMultipleFiles(disk: Disk, cursor: Option<Cursor>, input: string, names: seq<string>, now: int)
    returns (failure: Option<Error>)
    modifies disk
    ensures Run(disk.fs, failure) == NewMultipleFilesAt(old(disk.fs), cursor, input, names, now)
  {
    if cursor.None? || input == "" {
      return None;
    }
    var cwd := CwdOf(cursor.value);
    var i := 0;
    while i < |names|
      invariant 0 <= i <= |names|
      invariant CreateNames(old(disk.fs), cwd, names[..i], now) == Run(disk.fs, None)
    {
      assert names[..i + 1][..i] == names[..i];
      failure := CreateName(disk, cwd, names[i], now);
      if failure.Some? {
        CreateNamesStopsAtFailure(old(disk.fs), cwd, names, now, i + 1);
        return failure;
      }
      i := i + 1;
    }
    assert names[..i] == names;
    if names == [] {
      return Some(UnboundFilename);
    }
    return None;
  }
  // ---------------------------------------------------------------------------
  // Properties
  // ---------------------------------------------------------------------------

  /** Without both paths there is no prompt and the answer is "skip";
      otherwise Force gives the destination, Rename the typed path, and No,
      a dismissed prompt or any other number "skip". */
  lemma CheckOverwriteMeaning(fs: Fs, dest: Path, src: Path, answer: Answer)
    ensures var r := CheckOverwrite(fs, dest, src, answer);
            && (!Exists(fs, src) || !Exists(fs, dest) ==> r == EmptyPath)
            && (Exists(fs, src) && Exists(fs, dest) ==>
                  && (answer.choice == 1 ==> r == dest)
                  && (answer.choice == 3 ==> r == Parse(answer.typed))
                  && (answer.choice < 1 || answer.choice == 2 || answer.choice > 5 ==> r == EmptyPath))
  {
  }

  /** Time answers with `src` itself, and only when the destination is
      older; every other outcome is "skip". */
  lemma TimeChoiceMeaning(fs: Fs, dest: Path, src: Path, typed: string)
    ensures var r := CheckOverwrite(fs, dest, src, Answer(4, typed));
            && (r == src || r == EmptyPath)
            && (r == src && src != EmptyPath <==>
                  src != EmptyPath && Exists(fs, src) && Exists(fs, dest) &&
                  Stat(fs, dest).value.mtime < Stat(fs, src).value.mtime)
  {
  }

  /** So answering Time never transfers anything: the candidate is then
      skipped because it is its own destination. */
  lemma TimeChoiceNeverTransfers(fs: Fs, action: ClipboardAction, cwd: string, src: Path, typed: string,
                                 net: Remote.Network, now: int)
    requires Exists(fs, Join(Parse(cwd), Name(src)))
    ensures PasteItem(fs, action, cwd, LocalPath(src), Answer(4, typed), net, now) == Run(fs, None)
  {
    TimeChoiceMeaning(fs, Join(Parse(cwd), Name(src)), src, typed);
  }

  /** Underbar answers with the sibling of the destination whose name has
      `_` appended. */
  lemma UnderbarIsSibling(fs: Fs, dest: Path, src: Path, typed: string)
    requires Exists(fs, src) && Exists(fs, dest) && dest.parts != []
    ensures var r := CheckOverwrite(fs, dest, src, Answer(5, typed));
            && r.root == dest.root && Parent(r) == Parent(dest)
            && Name(r) == Name(dest) + "_" && r != dest
  {
    AppendToName(dest, "_");
    var r := CheckOverwrite(fs, dest, src, Answer(5, typed));
    assert |Name(r)| == |Name(dest)| + 1;
  }

  /** A candidate is skipped, with nothing changed, when the overwrite
      answer is "skip", when it no longer exists, or when it is its own
      destination. */
  lemma PasteItemSkips(fs: Fs, action: ClipboardAction, cwd: string, src: Path, answer: Answer,
                       net: Remote.Network, now: int)
    ensures var dest0 := Join(Parse(cwd), Name(src));
            var dest := if Exists(fs, dest0) then CheckOverwrite(fs, dest0, src, answer) else dest0;
            (Exists(fs, dest0) && dest == EmptyPath) || !Exists(fs, src) || src == dest ==>
              PasteItem(fs, action, cwd, LocalPath(src), answer, net, now) == Run(fs, None)
  {
  }

  /** Clearing a destination only takes entries away and leaves nothing at
      it: a real directory goes with everything below it, anything else is
      unlinked alone, and every entry not below it stays. A link is
      unlinked, even one to a directory, so what it points to stays. */
  lemma ClearRemovesDestination(fs: Fs, dest: Path)
    ensures Clear(fs, dest).Ok? ==>
              var fs' := Clear(fs, dest).value;
              && dest !in fs'
              && (forall q :: q in fs' ==> q in fs && fs'[q] == fs[q])
              && (forall q :: q in fs && !Under(dest, q) ==> q in fs' && fs'[q] == fs[q])
              && (IsRealDir(fs, dest) ==> forall q :: q in fs' ==> !Under(dest, q))
              && (!IsRealDir(fs, dest) ==> fs' == fs - {dest})
    ensures Clear(fs, dest).Ok? <==> dest in fs && (fs[dest].kind.Dir? ==> dest.parts != [])
    ensures IsSymlink(fs, dest) ==> Clear(fs, dest) == Ok(fs - {dest})
  {
    RmTreeMeaning(fs, dest);
    assert Under(dest, dest);
  }

  /** A move onto a name that already exists in the target directory never
      changes anything, whatever the answer: the candidate is skipped, or
      `shutil.move` refuses the existing destination. Force, which removes
      the destination for a copy or a link, does not for a move, which then
      always raises. */
  lemma MoveNeverOverwrites(fs: Fs, cwd: string, src: Path, answer: Answer, net: Remote.Network, now: int)
    requires Exists(fs, src) && IsDir(fs, Parse(cwd))
    requires Resolve(fs, src) != Resolve(fs, Parse(cwd))
    requires Exists(fs, Join(Parse(cwd), Name(src)))
    ensures var run := PasteItem(fs, MOVE, cwd, LocalPath(src), answer, net, now);
            && run.fs == fs
            && (run.failure.None? || run.failure == Some(FsFailure(DestinationExists)))
            && (answer.choice == 1 && src.parts != [] && src != Join(Parse(cwd), Name(src)) ==>
                  run.failure == Some(FsFailure(DestinationExists)))
  {
    if src.parts != [] {
      JoinPart(Parse(cwd), Name(src));
    }
  }

  /** Copying a file onto a file of the same name with Force replaces it:
      the old file is unlinked, then `copy2` puts a file with the source's
      time there, and nothing else changes. */
  lemma CopyForceReplacesFile(fs: Fs, cwd: string, src: Path, typed: string, net: Remote.Network, now: int)
    requires src in fs && fs[src].kind.File? && src.parts != []
    requires var dest := Join(Parse(cwd), Name(src));
             dest in fs && fs[dest].kind.File? && src != dest && IsRealDir(fs, Parse(cwd))
    ensures var dest := Join(Parse(cwd), Name(src));
            PasteItem(fs, COPY, cwd, LocalPath(src), Answer(1, typed), net, now) ==
              Run(fs[dest := Node(File, fs[src].mtime)], None)
  {
    var dest := Join(Parse(cwd), Name(src));
    JoinPart(Parse(cwd), Name(src));
    assert Resolve(fs, dest) == Some(dest);
    assert CheckOverwrite(fs, dest, src, Answer(1, typed)) == dest;
    var fs1 := fs - {dest};
    assert Clear(fs, dest) == Ok(fs1);
    assert Resolve(fs1, src) == Some(src);
    assert Resolve(fs1, dest) == None;
    assert Parent(dest) != dest;
    assert fs1[dest := Node(File, fs[src].mtime)] == fs[dest := Node(File, fs[src].mtime)];
  }

  /** Linking to a free name makes a link there to the source and nothing
      else. */
  lemma LinkMakesLink(fs: Fs, cwd: string, src: Path, answer: Answer, net: Remote.Network, now: int)
    requires Exists(fs, src)
    requires var dest := Join(Parse(cwd), Name(src));
             dest !in fs && src != dest && IsRealDir(fs, Parent(dest))
    ensures var dest := Join(Parse(cwd), Name(src));
            PasteItem(fs, LINK, cwd, LocalPath(src), answer, net, now) ==
              Run(fs[dest := Node(Link(src), now)], None)
  {
  }

  /** Copying a file (or a link to one) to a free name in a real directory
      makes a file there with the time of the file it resolves to, and
      changes nothing else. */
  lemma CopyFileToFreeName(fs: Fs, cwd: string, src: Path, answer: Answer, net: Remote.Network, now: int)
    requires Exists(fs, src) && !IsDir(fs, src)
    requires var dest := Join(Parse(cwd), Name(src));
             dest !in fs && src != dest && IsRealDir(fs, Parent(dest))
    ensures var dest := Join(Parse(cwd), Name(src));
            PasteItem(fs, COPY, cwd, LocalPath(src), answer, net, now) ==
              Run(fs[dest := Node(File, fs[Resolve(fs, src).value].mtime)], None)
  {
  }

  /** Copying a directory to a free name in a real directory puts a
      directory there with the source's time, copies everything below the
      source below it, and keeps every entry outside the new tree. */
  lemma CopyDirectoryToFreeName(fs: Fs, cwd: string, src: Path, answer: Answer, net: Remote.Network, now: int)
    requires IsRealDir(fs, src)
    requires var dest := Join(Parse(cwd), Name(src));
             dest !in fs && src != dest && IsRealDir(fs, Parent(dest))
    ensures var dest := Join(Parse(cwd), Name(src));
            var run := PasteItem(fs, COPY, cwd, LocalPath(src), answer, net, now);
            && run.failure.None?
            && dest in run.fs && run.fs[dest] == fs[src]
            && (forall q :: q in fs && Under(src, q) ==> Rebase(src, dest, q) in run.fs && run.fs[Rebase(src, dest, q)] == fs[q])
            && (forall q :: q in fs && !Under(dest, q) ==> q in run.fs && run.fs[q] == fs[q])
  {
    var dest := Join(Parse(cwd), Name(src));
    assert Resolve(fs, src) == Some(src);
    assert !Exists(fs, dest);
    assert Mkdir(fs, dest, true, false, now).Ok?;
    var copied := CopyTree(fs, src, dest, now);
    assert PasteItem(fs, COPY, cwd, LocalPath(src), answer, net, now) == Lift(copied, fs);
    CopyTreeMeaning(fs, src, dest, now);
    assert Under(src, src);
    assert Rebase(src, dest, src) == dest;
  }

  /** Moving an entry that is not above the target directory to a free name
      in it renames it there: the entry and everything below it go below
      the new name, every entry outside both trees stays, and nothing is
      left at the old path unless the new one is above it. */
  lemma MoveToFreeName(fs: Fs, cwd: string, src: Path, answer: Answer, net: Remote.Network, now: int)
    requires src in fs && Exists(fs, src) && src.parts != []
    requires IsRealDir(fs, Parse(cwd)) && !Under(src, Parse(cwd)) && Resolve(fs, src) != Some(Parse(cwd))
    requires Join(Parse(cwd), Name(src)) !in fs
    ensures var dest := Join(Parse(cwd), Name(src));
            var run := PasteItem(fs, MOVE, cwd, LocalPath(src), answer, net, now);
            && run.failure.None?
            && dest in run.fs && run.fs[dest] == fs[src]
            && (forall q :: q in fs && Under(src, q) ==> Rebase(src, dest, q) in run.fs && run.fs[Rebase(src, dest, q)] == fs[q])
            && (forall q :: q in fs && !Under(src, q) && !Under(dest, q) ==> q in run.fs && run.fs[q] == fs[q])
            && (!Under(dest, src) ==> src !in run.fs)
  {
    var dest := Join(Parse(cwd), Name(src));
    MoveIntoDirectory(fs, src, Parse(cwd), now);
    assert src != dest;
  }

  /** Remote candidates are never pasted: the local file system stays as
      it is, and the paste can only fail by a server request failing. */
  lemma {:induction false} RemoteClipboardChangesNothing(fs: Fs, action: ClipboardAction, cwd: string, items: seq<Entry>,
                                                         answers: nat -> Answer, net: Remote.Network, now: int)
    requires forall i :: 0 <= i < |items| ==> items[i].RemotePath?
    ensures var run := PasteItems(fs, action, cwd, items, answers, net, now);
            run.fs == fs && (run.failure.Some? ==> run.failure.value.ServerFailure?)
    decreases |items|
  {
    if items != [] {
      var front := items[..|items| - 1];
      assert forall i :: 0 <= i < |front| ==> front[i] == items[i];
      RemoteClipboardChangesNothing(fs, action, cwd, front, answers, net, now);
    }
  }

  /** Removing one target only takes entries away, keeps every entry that
      is not below the target's path, and on success the target's path is
      gone. */
  lemma RemoveEntryMeaning(fs: Fs, target: Entry, net: Remote.Network)
    ensures var run := RemoveEntry(fs, target, net);
            && (forall q :: q in run.fs ==> q in fs && run.fs[q] == fs[q])
            && (forall q :: q in fs && !Under(EntryPath(target), q) ==> q in run.fs && run.fs[q] == fs[q])
            && (run.failure.None? ==> EntryPath(target) !in run.fs)
  {
    RmTreeMeaning(fs, EntryPath(target));
    assert Under(EntryPath(target), EntryPath(target));
  }

  /** A remote target the server calls a directory removes the LOCAL tree
      at the same text: it succeeds exactly when that is a real directory
      other than a root, then everything below it goes and the rest stays;
      otherwise nothing changes. */
  lemma RemoveRemoteDirectoryRemovesLocalTree(fs: Fs, sp: SftpPaths.SftpPath, net: Remote.Network)
    requires SftpPaths.IsDir(sp, net) == Ok(true)
    ensures var run := RemoveEntry(fs, RemotePath(sp), net);
            var p := Parse(sp.path);
            && (run.failure.None? <==> IsRealDir(fs, p) && p.parts != [])
            && (run.failure.None? ==>
                  && (forall q :: q in run.fs ==> !Under(p, q))
                  && (forall q :: q in fs && !Under(p, q) ==> q in run.fs && run.fs[q] == fs[q]))
            && (run.failure.Some? ==> run.fs == fs)
  {
    RmTreeMeaning(fs, Parse(sp.path));
  }

  /** A removal that raises nothing leaves none of its targets; no removal,
      complete or not, adds or alters an entry, and every entry below none
      of the targets stays. */
  lemma {:induction false} RemoveItemsMeaning(fs: Fs, targets: seq<Entry>, net: Remote.Network)
    ensures var run := RemoveItems(fs, targets, net);
            && (forall q :: q in run.fs ==> q in fs && run.fs[q] == fs[q])
            && (forall q :: q in fs && (forall i :: 0 <= i < |targets| ==> !Under(EntryPath(targets[i]), q)) ==>
                  q in run.fs && run.fs[q] == fs[q])
            && (run.failure.None? ==> forall i :: 0 <= i < |targets| ==> EntryPath(targets[i]) !in run.fs)
    decreases |targets|
  {
    if targets != [] {
      var n := |targets|;
      var front, last := targets[..n - 1], targets[n - 1];
      assert forall i :: 0 <= i < n - 1 ==> targets[i] == front[i];
      var before := RemoveItems(fs, front, net);
      var run := RemoveItems(fs, targets, net);
      RemoveItemsMeaning(fs, front, net);
      RemoveItemsStep(fs, targets, net);
      if before.failure.None? {
        assert run == RemoveEntry(before.fs, last, net);
        RemoveEntryMeaning(before.fs, last, net);
        forall q | q in fs && (forall i :: 0 <= i < n ==> !Under(EntryPath(targets[i]), q))
          ensures q in run.fs && run.fs[q] == fs[q]
        {
          assert !Under(EntryPath(targets[n - 1]), q);
        }
        if run.failure.None? {
          forall i | 0 <= i < n
            ensures EntryPath(targets[i]) !in run.fs
          {
            if i < n - 1 {
              assert EntryPath(front[i]) !in before.fs;
            }
          }
        }
      }
    }
  }

  /** One more target handled by `_remove`. */
  lemma RemoveItemsStep(fs: Fs, targets: seq<Entry>, net: Remote.Network)
    requires targets != []
    ensures var before := RemoveItems(fs, targets[..|targets| - 1], net);
            RemoveItems(fs, targets, net)
            == if before.failure.Some? then before else RemoveEntry(before.fs, targets[|targets| - 1], net)
  {
  }

  /** A link to a directory counts as a directory, so `rmtree` is called on
      it, which refuses links: the removal raises and nothing goes. */
  lemma RemoveLinkToDirectoryRefused(fs: Fs, p: Path, net: Remote.Network)
    requires IsSymlink(fs, p) && IsDir(fs, p)
    ensures RemoveEntry(fs, LocalPath(p), net) == Run(fs, Some(FsFailure(SymlinkRefused)))
  {
  }

  /** A remote file from a listing (its attributes carried, with a regular
      file's mode) cannot be removed: the pure path has no `unlink`. */
  lemma RemoveRemoteFileFails(fs: Fs, sp: SftpPaths.SftpPath, net: Remote.Network)
    requires sp.cached.Some? && Remote.IsRegularMode(sp.cached.value.mode)
    ensures RemoveEntry(fs, RemotePath(sp), net) == Run(fs, Some(NoSuchMethod))
  {
  }

  /** The first argument `force` skips the confirmation; without it an
      unconfirmed removal does nothing. */
  lemma ForceSkipsConfirmation(fs: Fs, targets: seq<Entry>, args: seq<string>, net: Remote.Network)
    ensures Forced(args) ==>
              RemoveAll(fs, targets, args, false, net) == RemoveAll(fs, targets, args, true, net)
    ensures !Forced(args) ==> RemoveAll(fs, targets, args, false, net) == Run(fs, None)
    ensures targets != [] ==> RemoveAll(fs, targets, args, true, net) == RemoveItems(fs, targets, net)
  {
  }

  /** Renaming a local entry to a path that is free, or whose text differs
      from the old one's only in the case of letters: a missing parent of
      the new path is made first, then the entry and everything below it go
      below the new path. Every entry outside both trees stays, the old path
      is left empty when neither path is above the other, and the new
      path's parent is a directory afterwards. */
  lemma RenameMovesEntry(fs: Fs, p: Path, cwd: string, typed: string, now: int)
    requires typed != "" && p in fs && Join(Parse(cwd), typed) != p
    requires !(Lower(Str(Join(Parse(cwd), typed))) != Lower(Str(p)) && Exists(fs, Join(Parse(cwd), typed)))
    requires RenameTarget(fs, [LocalPath(p)], cwd, typed, now).failure.None?
    ensures var newPath := Join(Parse(cwd), typed);
            var fs' := RenameTarget(fs, [LocalPath(p)], cwd, typed, now).fs;
            && newPath in fs' && fs'[newPath] == fs[p]
            && (forall q :: q in fs && Under(p, q) ==> Rebase(p, newPath, q) in fs' && fs'[Rebase(p, newPath, q)] == fs[q])
            && (forall q :: q in fs && !Under(p, q) && !Under(newPath, q) ==> q in fs' && fs'[q] == fs[q])
            && (!Under(p, newPath) && !Under(newPath, p) ==> p !in fs')
            && (!Under(p, newPath) ==> IsDir(fs', Parent(newPath)))
  {
    var newPath := Join(Parse(cwd), typed);
    var made := if !Exists(fs, Parent(newPath)) then Mkdir(fs, Parent(newPath), true, false, now) else Ok(fs);
    assert made.Ok?;
    var fs1 := made.value;
    assert Grows(fs, fs1);
    assert RenameTarget(fs, [LocalPath(p)], cwd, typed, now) == Lift(OsRename(fs1, p, newPath), fs1);
    OsRenameMeaning(fs1, p, newPath);
    if !Under(p, newPath) {
      OsRenameKeepsParent(fs1, p, newPath);
    }
  }

  /** A rename that raises loses no entry and alters none: at most the
      parent directories made before it stay. */
  lemma RenameFailureKeeps(fs: Fs, targets: seq<Entry>, cwd: string, typed: string, now: int)
    ensures var run := RenameTarget(fs, targets, cwd, typed, now);
            run.failure.Some? ==> Grows(fs, run.fs)
  {
  }

  /** Nothing is renamed when several targets are given (they go to the
      ex-rename buffer), when the answer is empty, when the new path is the
      old one, or when it exists and its text differs from the old one's in
      more than the case of letters; a remote target that reaches the rename always raises. */
  lemma RenameSkipsAndFailures(fs: Fs, targets: seq<Entry>, cwd: string, typed: string, now: int)
    ensures |targets| > 1 || typed == "" ==> RenameTarget(fs, targets, cwd, typed, now) == Run(fs, None)
    ensures |targets| == 1 && Join(Parse(cwd), typed) == EntryPath(targets[0]) ==>
              RenameTarget(fs, targets, cwd, typed, now) == Run(fs, None)
    ensures |targets| == 1 && typed != "" && Join(Parse(cwd), typed) != EntryPath(targets[0]) &&
            Lower(Str(Join(Parse(cwd), typed))) != Lower(EntryText(targets[0])) && Exists(fs, Join(Parse(cwd), typed)) ==>
              RenameTarget(fs, targets, cwd, typed, now) == Run(fs, None)
    ensures |targets| == 1 && targets[0].RemotePath? && typed != "" &&
            Join(Parse(cwd), typed) != EntryPath(targets[0]) &&
            !(Lower(Str(Join(Parse(cwd), typed))) != Lower(EntryText(targets[0])) && Exists(fs, Join(Parse(cwd), typed))) ==>
              RenameTarget(fs, targets, cwd, typed, now).failure.Some?
  {
  }

  /** `_new_directory`: an existing path is left alone; otherwise success
      leaves a directory there, keeps every entry with its type, and adds
      only directories. */
  lemma NewDirectoryMeaning(fs: Fs, cursor: Option<Cursor>, typed: string, now: int)
    requires cursor.Some? && typed != ""
    ensures var filename := Join(Parse(CwdOf(cursor.value)), typed);
            var run := NewDirectoryAt(fs, cursor, typed, now);
            && (Exists(fs, filename) ==> run == Run(fs, None))
            && (run.failure.Some? ==> run.fs == fs)
            && (!Exists(fs, filename) && run.failure.None? ==>
                  IsDir(run.fs, filename) && Keeps(fs, run.fs) &&
                  forall q :: q in run.fs && q !in fs ==> run.fs[q].kind == Dir)
  {
  }

  /** `_new_file`: an existing path is left alone; otherwise every entry
      keeps its type, even when a call raises, and success leaves a
      directory when the name ends in a slash and else a new empty file
      (when nothing was at the path), adding only directories besides. */
  lemma NewFileMeaning(fs: Fs, cursor: Option<Cursor>, typed: string, now: int)
    requires cursor.Some? && typed != ""
    ensures var filename := Join(Parse(CwdOf(cursor.value)), typed);
            var run := NewFileAt(fs, cursor, typed, now);
            && (Exists(fs, filename) ==> run == Run(fs, None))
            && Keeps(fs, run.fs)
            && (!Exists(fs, filename) && run.failure.None? ==>
                  && Exists(run.fs, filename)
                  && (typed[|typed| - 1] == '/' ==> IsDir(run.fs, filename))
                  && (typed[|typed| - 1] != '/' && filename !in fs && filename.parts != [] ==>
                        run.fs[filename] == Node(File, now))
                  && forall q :: q in run.fs && q !in fs && q != filename ==> run.fs[q].kind == Dir)
  {
    var filename := Join(Parse(CwdOf(cursor.value)), typed);
    if !Exists(fs, filename) && typed[|typed| - 1] != '/' {
      var made := Mkdir(fs, Parent(filename), true, true, now);
      if made.Ok? {
        TouchMakesFile(fs, made.value, filename, now);
      }
    }
  }

  /** Touching a path after its parent was made: every entry keeps its type,
      and a touch that succeeds leaves something at the path, a new empty
      file when nothing was there before. */
  lemma TouchMakesFile(fs: Fs, fs1: Fs, filename: Path, now: int)
    requires Grows(fs, fs1)
    requires forall q :: q in fs1 && q !in fs ==> fs1[q] == Node(Dir, now) && Under(q, Parent(filename))
    ensures var r := Touch(fs1, filename, now);
            && Keeps(fs, if r.Ok? then r.value else fs1)
            && (r.Ok? ==> Exists(r.value, filename))
            && (r.Ok? ==> forall q :: q in r.value && q !in fs && q != filename ==> r.value[q].kind == Dir)
            && (r.Ok? && filename !in fs && filename.parts != [] ==> r.value[filename] == Node(File, now))
  {
    if Touch(fs1, filename, now).Ok? {
      TouchMeaning(fs1, filename, now);
      if filename !in fs && filename.parts != [] {
        assert !Under(filename, Parent(filename));
        assert filename !in fs1;
      }
    }
  }

  /** One name of `_new_multiple_files`: an empty name raises, an existing
      path is skipped, and every entry keeps its type. Success on a path
      that did not exist leaves a directory when the name ends in a slash
      and else a new empty file (when nothing was at the path). */
  lemma CreateOneMeaning(fs: Fs, cwd: string, name: string, now: int)
    ensures var filename := Join(Parse(cwd), name);
            var run := CreateOne(fs, cwd, name, now);
            && Keeps(fs, run.fs)
            && (name == "" ==> run == Run(fs, Some(EmptyName)))
            && (name != "" && Exists(fs, filename) ==> run == Run(fs, None))
            && (run.failure.None? ==> Exists(run.fs, filename))
            && (name != "" && name[|name| - 1] == '/' && !Exists(fs, filename) && run.failure.None? ==>
                  IsDir(run.fs, filename))
            && (name != "" && name[|name| - 1] != '/' && filename !in fs && filename.parts != [] && run.failure.None? ==>
                  run.fs[filename] == Node(File, now))
  {
    var filename := Join(Parse(cwd), name);
    if name != "" && !Exists(fs, filename) && name[|name| - 1] != '/' {
      var made := if !Exists(fs, Parent(filename)) then Mkdir(fs, Parent(filename), true, false, now) else Ok(fs);
      if made.Ok? {
        TouchMakesFile(fs, made.value, filename, now);
      }
    }
  }

  /** What exists stays existing across a change that keeps entries. */
  lemma ExistingStay(fs: Fs, fs': Fs, cwd: string, names: seq<string>)
    requires Keeps(fs, fs')
    requires forall i :: 0 <= i < |names| ==> Exists(fs, Join(Parse(cwd), names[i]))
    ensures forall i :: 0 <= i < |names| ==> Exists(fs', Join(Parse(cwd), names[i]))
  {
    forall i | 0 <= i < |names|
      ensures Exists(fs', Join(Parse(cwd), names[i]))
    {
      ResolveKept(fs, fs', Join(Parse(cwd), names[i]));
    }
  }

  lemma ExistingExtend(fs: Fs, cwd: string, names: seq<string>, name: string)
    requires forall i :: 0 <= i < |names| ==> Exists(fs, Join(Parse(cwd), names[i]))
    requires Exists(fs, Join(Parse(cwd), name))
    ensures forall i :: 0 <= i < |names + [name]| ==> Exists(fs, Join(Parse(cwd), (names + [name])[i]))
  {
    forall i | 0 <= i < |names + [name]|
      ensures Exists(fs, Join(Parse(cwd), (names + [name])[i]))
    {
      if i < |names| {
        assert (names + [name])[i] == names[i];
      }
    }
  }

  /** After all names are handled without an exception, every one of them
      exists, made now or before; no entry is ever removed or retyped. */
  lemma {:induction false} CreateNamesMeaning(fs: Fs, cwd: string, names: seq<string>, now: int)
    ensures var run := CreateNames(fs, cwd, names, now);
            && Keeps(fs, run.fs)
            && (run.failure.None? ==> forall i :: 0 <= i < |names| ==> Exists(run.fs, Join(Parse(cwd), names[i])))
    decreases |names|
  {
    if names != [] {
      var n := |names|;
      var front, last := names[..n - 1], names[n - 1];
      assert names == front + [last];
      var before := CreateNames(fs, cwd, front, now);
      var run := CreateNames(fs, cwd, names, now);
      CreateNamesMeaning(fs, cwd, front, now);
      CreateNamesStep(fs, cwd, names, now);
      if before.failure.None? {
        assert Keeps(before.fs, run.fs)
            && (run.failure.None? ==> Exists(run.fs, Join(Parse(cwd), last))) by {
          CreateOneMeaning(before.fs, cwd, last, now);
        }
        KeepsChain(fs, before.fs, run.fs);
        if run.failure.None? {
          ExistingStay(before.fs, run.fs, cwd, front);
          ExistingExtend(run.fs, cwd, front, last);
        }
      }
    }
  }

  /** One more name handled by `_new_multiple_files`. */
  lemma CreateNamesStep(fs: Fs, cwd: string, names: seq<string>, now: int)
    requires names != []
    ensures var before := CreateNames(fs, cwd, names[..|names| - 1], now);
            CreateNames(fs, cwd, names, now)
            == if before.failure.Some? then before else CreateOne(before.fs, cwd, names[|names| - 1], now)
  {
  }

  /** `_new_multiple_files` on input that splits into no names always ends
      reading the unbound name, having changed nothing. */
  lemma NoNamesRaises(fs: Fs, cursor: Option<Cursor>, input: string, now: int)
    requires cursor.Some? && input != ""
    ensures NewMultipleFilesAt(fs, cursor, input, [], now) == Run(fs, Some(UnboundFilename))
  {
  }
}
