# defx-sftp, modelled in Dafny

defx-sftp is a plug-in for the defx file explorer of Neovim. It browses a
remote machine over SFTP. This project models its core and proves
properties of the model:

- **The `sftp` source** (`rplugin/python3/defx/source/sftp.py`).
  - It reads an argument `//user@host/path` with two regular-expression
    searches.
  - It keeps one connection slot: the client, the user name and the host
    name. A new connection is opened only when the parsed identity differs
    from the stored one.
  - It builds the root candidate: the display word gets a trailing `/` and
    has its line feeds escaped.
  - It builds one candidate per listing entry.
- **The remote path** (`rplugin/python3/defx/sftp/sftp_path.py`). This is a
  pure POSIX path with the following behaviour:
  - its text is stored as given, with no normalisation;
  - equality compares that text alone;
  - `joinpath` concatenates;
  - `stat` answers from the attributes the path carries, or else asks the
    server without keeping the answer;
  - `exists` never answers true;
  - `is_dir` holds for every type other than a regular file.
- **The earlier revision of the remote path**
  (`rplugin/python3/defx/source/sftp_path.py`). It classifies an entry by
  `lstat` with one exact file type each, and its `iterdir` yields bare names.
- **The file actions** (`rplugin/python3/defx/kind/sftp.py`): the overwrite
  prompt, paste, remove, rename and the creation of files and directories.
  These act on the *local* file system through `pathlib`, `os` and `shutil`,
  even for remote candidates.

Module by module:

- `AddressPatterns` models the two pairs of `re.search` calls.
  - Each search is given twice: as a declarative statement of the span
    Python's `re` reports (the leftmost start, then greedy groups, with `.`
    not matching a line feed), and as a scan.
  - Lemmas prove that the scan reports exactly that span.
- `PurePaths` models `pathlib.PurePosixPath`: parsing into a root and parts,
  `str`, `joinpath`, `name` and `parent`.
- `Remote` models the server as uninterpreted functions of the path: the
  results of `normalize`, `stat`, `lstat` and `listdir_attr`. It also holds
  the POSIX file-type bits.
- `SftpPaths` and `LegacySftpPaths` model the two revisions of the remote
  path, as datatypes, since nothing in them changes after creation.
- `SftpSource` models the source.
  - The source is a class with the connection fields and a ghost counter of
    the connections opened.
  - Its methods are proved against the specification functions
    `ParseArgSpec`, `RootWord` and `ListingCandidates`.
- `LocalFs` models the local file system as a map from path to entry (a
  file, a directory or a symbolic link, each with a modification time). It
  gives the effect of each `os`, `shutil` and `pathlib` call the actions
  make, including the exceptions they raise, for paths without a `..` part
  (see "## Left out").
- `FileActions` models the actions of the kind.
  - Each is a method on a `Disk` object, and `_paste` also works on the
    `Clipboard` object.
  - Each method is proved equal to a specification function that returns the
    final file system and the exception raised, if any. A step that raised
    leaves in place the changes made before it.
  - Prompts and typed answers are parameters.

## Model

| member | source | states |
|---|---|---|
| `AddressPatterns.FindAddress` | rplugin/python3/defx/source/sftp.py:72 | the search for `//(.+)@(.+)`: a reported span has a non-empty user between `//` and `@` and a tail of at least the minimum length; `FindAddressSelects` proves it is the span `re.search` selects |
| `AddressPatterns.AddressAtSelects` | rplugin/python3/defx/source/sftp.py:72 | at one start position the scan finds a match of `//(.+)@(.+)` exactly when one starts there, and it reports the latest `@` and the longest tail |
| `AddressPatterns.AddressFromSelects` | rplugin/python3/defx/source/sftp.py:72 | scanning from a position before every match reports the leftmost match and its greedy span |
| `AddressPatterns.FindAddressSelects` | rplugin/python3/defx/source/sftp.py:72 | the search fails exactly when no span matches; otherwise it reports the span `re.search` selects |
| `AddressPatterns.SelectedAddressMatchUnique` | rplugin/python3/defx/source/sftp.py:72 | the selected span (leftmost start, then greedy groups) is unique |
| `AddressPatterns.FindSlash` | rplugin/python3/defx/source/sftp.py:75 | the search for `([^/]+)/(.*)`: a reported host run is long enough and ends at a `/`; `FindSlashSelects` proves it is the selected span |
| `AddressPatterns.SlashFromSelects` | rplugin/python3/defx/source/sftp.py:75 | for `([^/]+)/(.*)`, scanning from a position before every match reports the leftmost start and the first `/` after it |
| `AddressPatterns.FindSlashSelects` | rplugin/python3/defx/source/sftp.py:75 | the host/file search fails exactly when no span matches; otherwise it reports the selected one |
| `AddressPatterns.FindSlashOfSelected` | rplugin/python3/defx/source/sftp.py:75 | the selected host/file span is the one the search reports |
| `AddressPatterns.SplitHost` | rplugin/python3/defx/source/sftp.py:75-80 | the user part is kept and the host is never empty |
| `AddressPatterns.RestOfLine` | rplugin/python3/defx/source/sftp.py:77 | `(.*)` after the slash holds no line feed, and on a single line it is the whole rest |
| `AddressPatterns.ParseAddress` | rplugin/python3/defx/source/sftp.py:72-80 | a parsed address always has a non-empty user and host |
| `AddressPatterns.ParseAddressMeaning` | rplugin/python3/defx/source/sftp.py:72-80 | no address exactly when `//.+@.+` matches nowhere; otherwise the user is the selected greedy group, up to the last `@` of its line, and host and file follow the host/file search, or the host is the whole rest and the file is `.` |
| `AddressPatterns.ParseAddressNoLineFeed` | rplugin/python3/defx/source/sftp.py:72-77 | a parsed user name and host name hold no line feed |
| `AddressPatterns.ParseAddressAtFront` | rplugin/python3/defx/source/sftp.py:72-80 | `//user@tail` with no `@` or line feed in the tail is split by the host/file search alone |
| `AddressPatterns.ParseFormattedAddress` | rplugin/python3/defx/source/sftp.py:72-77 | `//user@host/file` parses back to user, host and file when the host has no `/` or `@` and no part has a line feed |
| `AddressPatterns.ParseHostOnlyAddress` | rplugin/python3/defx/source/sftp.py:78-80 | `//user@host` without a slash parses to that host and the file `.` |
| `AddressPatterns.FindAddressOfSelected` | rplugin/python3/defx/sftp/sftp_path.py:10 | `re.search('//.+@(.*)')` reports the selected span |
| `AddressPatterns.FindSlashAnyRun` | rplugin/python3/defx/sftp/sftp_path.py:12 | `[^/]*/(.*)` matches exactly when there is a `/`, and it matches at the start up to the first `/` |
| `AddressPatterns.AfterFirstSlashMeaning` | rplugin/python3/defx/sftp/sftp_path.py:12-16 | a single line gives what follows its first `/`, or `.` without one |
| `AddressPatterns.GetRealPath` | rplugin/python3/defx/sftp/sftp_path.py:9-18 | `_get_real_path`; its meaning is stated by `GetRealPathOfSelected` and `GetRealPathMeaning` |
| `AddressPatterns.GetRealPathOfSelected` | rplugin/python3/defx/sftp/sftp_path.py:9-18 | given the selected span, `_get_real_path` is the text after the first `/` following the last `@`, up to the end of the line, or `.` |
| `AddressPatterns.GetRealPathMeaning` | rplugin/python3/defx/sftp/sftp_path.py:9-18 | without a `//.+@` match the input comes back unchanged; with one, the result is as in `GetRealPathOfSelected` |
| `PurePaths.ParseStr` | rplugin/python3/defx/kind/sftp.py:297 | `Path(str(p)) == p`, so `rmtree(str(dest))` acts on `dest` |
| `PurePaths.ParseIdempotent` | rplugin/python3/defx/kind/sftp.py:172 | parsing the printed form of a parsed path changes nothing |
| `PurePaths.JoinPart` | rplugin/python3/defx/kind/sftp.py:281 | joining one ordinary part appends it; the result's name is that part and its parent is the path joined to |
| `PurePaths.NameOfChild` | rplugin/python3/defx/source/sftp.py:65 | the pathlib name of `parent + '/' + x` is `x` for an ordinary filename |
| `PurePaths.AppendToName` | rplugin/python3/defx/kind/sftp.py:86 | `Path(str(p) + s)` is the sibling of `p` named `p.name + s` |
| `Remote.ServerOf` | rplugin/python3/defx/sftp/sftp_path.py:57 | a request goes to the server of the client the path holds, and fails exactly when it holds none |
| `Remote.ListDir` | rplugin/python3/defx/source/sftp_path.py:16 | `listdir` fails exactly when `listdir_attr` does and gives its filenames in order |
| `Remote.IFMT` | rplugin/python3/defx/source/sftp_path.py:21 | `S_IFMT` keeps the four type bits in place and clears the rest |
| `Remote.IFMTIgnoresPermissions` | rplugin/python3/defx/source/sftp_path.py:21 | the permission bits do not affect the type |
| `Remote.TypesExclusive` | rplugin/python3/defx/sftp/sftp_path.py:59-65 | no mode is of two types |
| `SftpPaths.Str` | rplugin/python3/defx/sftp/sftp_path.py:33-34 | `str(p)` is the stored text; used by `EqualsIsTextEquality` and `JoinPathTwice` |
| `SftpPaths.Equals` | rplugin/python3/defx/sftp/sftp_path.py:30-31 | `p == other` compares the texts; stated by `EqualsIsTextEquality` |
| `SftpPaths.Stat` | rplugin/python3/defx/sftp/sftp_path.py:53-57 | the carried attributes or the server's answer; stated by `StatUsesCache` and `StatAsksServer` |
| `SftpPaths.Exists` | rplugin/python3/defx/sftp/sftp_path.py:47-51 | `exists`; stated by `ExistsMeaning` |
| `SftpPaths.IsDir` | rplugin/python3/defx/sftp/sftp_path.py:59-61 | "not a regular file"; stated by `IsDirMeaning` |
| `SftpPaths.IsSymlink` | rplugin/python3/defx/sftp/sftp_path.py:63-65 | the link type bits of `stat`; stated with `IsDir` by `IsDirMeaning` |
| `SftpPaths.IterDir` | rplugin/python3/defx/sftp/sftp_path.py:36-38 | one joined child per `listdir_attr` entry; stated by `IterDirChildren` and `IterDirFails` |
| `SftpPaths.JoinPath` | rplugin/python3/defx/sftp/sftp_path.py:43-45 | the child's text is the parent's, a `/` and the name, with the parent's client and the attributes given |
| `SftpPaths.RelativeTo` | rplugin/python3/defx/sftp/sftp_path.py:40-41 | the path itself, whatever the argument |
| `SftpPaths.JoinPathTwice` | rplugin/python3/defx/sftp/sftp_path.py:43-45 | `p.joinpath(x).joinpath(y)` equals `p.joinpath(x + '/' + y)` |
| `SftpPaths.EqualsIsTextEquality` | rplugin/python3/defx/sftp/sftp_path.py:30-34 | equality holds exactly when the stored texts are equal, and it is symmetric |
| `SftpPaths.StatUsesCache` | rplugin/python3/defx/sftp/sftp_path.py:53-55 | carried attributes answer `stat` for every network, even without a client |
| `SftpPaths.StatAsksServer` | rplugin/python3/defx/sftp/sftp_path.py:56-57 | without attributes, `stat` is the server's current answer, or fails with no client |
| `SftpPaths.ExistsMeaning` | rplugin/python3/defx/sftp/sftp_path.py:47-51 | `exists` never answers true: false exactly on a missing file, `None` exactly when `stat` succeeds, and it re-raises every other error |
| `SftpPaths.IsDirMeaning` | rplugin/python3/defx/sftp/sftp_path.py:59-65 | `is_dir` holds exactly for a mode that is not a regular file's, so a link is a directory as well |
| `SftpPaths.IterDirChildren` | rplugin/python3/defx/sftp/sftp_path.py:36-38 | one child per entry, in order, with the parent's client, the text `parent/filename` and the entry's attributes; its classification needs no server |
| `SftpPaths.IterDirFails` | rplugin/python3/defx/sftp/sftp_path.py:36-38 | the listing fails exactly without a client or when the server refuses it |
| `LegacySftpPaths.Lstat` | rplugin/python3/defx/source/sftp_path.py:20 | `self.sftp.lstat(self.path)` on the path's client; used by `ClassificationMeaning` |
| `LegacySftpPaths.IsDir` | rplugin/python3/defx/source/sftp_path.py:19-21 | the lstat type is exactly a directory's; stated by `ClassificationMeaning` |
| `LegacySftpPaths.IsSymlink` | rplugin/python3/defx/source/sftp_path.py:23-25 | the lstat type is exactly a link's; stated by `ClassificationMeaning` |
| `LegacySftpPaths.IterDir` | rplugin/python3/defx/source/sftp_path.py:15-17 | one bare-named path per `listdir` name; stated by `IterDirBareNames` |
| `LegacySftpPaths.ClassificationMeaning` | rplugin/python3/defx/source/sftp_path.py:19-25 | `is_dir` and `is_symlink` are the lstat type bits compared with the directory and the link type; never both |
| `LegacySftpPaths.LinkToDirectoryIsLink` | rplugin/python3/defx/source/sftp_path.py:19-25 | a link is reported as a link and not as a directory, whatever it points to |
| `LegacySftpPaths.IterDirBareNames` | rplugin/python3/defx/source/sftp_path.py:15-17 | the listing yields bare names, in order, where the later revision yields `parent/name` |
| `LegacySftpPaths.RevisionsDisagreeOnLinks` | rplugin/python3/defx/source/sftp_path.py:19-21 | for a link, the later revision says directory and this one does not |
| `LegacySftpPaths.RevisionsAgreeOffLinks` | rplugin/python3/defx/source/sftp_path.py:19-25 | for a directory or a regular file, both revisions classify alike |
| `SftpSource.ParseArgSpec` | rplugin/python3/defx/source/sftp.py:71-89 | the new slot and the path `_parse_arg` returns; stated by the `ParseArg*` lemmas |
| `SftpSource.Escape` | rplugin/python3/defx/source/sftp.py:49 | `replace('\n', '\\n')`; stated by `EscapeMeaning` and `EscapeAppend` |
| `SftpSource.RootWord` | rplugin/python3/defx/source/sftp.py:44-49 | the root's display word; stated by `RootWordShape` and `RootWordKeepsIdentity` |
| `SftpSource.ChildCandidates` | rplugin/python3/defx/source/sftp.py:62-68 | one candidate per child in order, the first failure ending it; stated by `ChildCandidatesStopsAtError` and `ChildCandidatesOfCached` |
| `SftpSource.InitialSlot` | rplugin/python3/defx/source/sftp.py:26-28 | the slot after `__init__` is valid |
| `SftpSource.Source.constructor` | rplugin/python3/defx/source/sftp.py:19-32 | no client, an empty identity, no connection opened |
| `SftpSource.Source.ParseArg` | rplugin/python3/defx/source/sftp.py:71-89 | the slot and the result are those of `ParseArgSpec`; the slot stays valid; the counter grows by one exactly when the slot changes |
| `SftpSource.Source.GetRootCandidate` | rplugin/python3/defx/source/sftp.py:40-54 | the parsed path, always a directory, with the word built from the identity after parsing |
| `SftpSource.Source.GatherCandidates` | rplugin/python3/defx/source/sftp.py:56-69 | the candidates are `ListingCandidates` of the parsed path |
| `SftpSource.CollectCandidates` | rplugin/python3/defx/source/sftp.py:62-69 | the loop gives `ChildCandidates` of the children, stopping at the first failure |
| `SftpSource.ChildCandidatesStopsAtError` | rplugin/python3/defx/source/sftp.py:63-68 | the first child whose classification fails decides the result |
| `SftpSource.ParseArgKeepsSlotValid` | rplugin/python3/defx/source/sftp.py:81-87 | `_parse_arg` keeps the slot valid |
| `SftpSource.ParseArgWithoutAddress` | rplugin/python3/defx/source/sftp.py:88-89 | without an address the argument is wrapped verbatim on the current client and the slot is untouched |
| `SftpSource.ParseArgSlotChange` | rplugin/python3/defx/source/sftp.py:81-86 | the slot changes exactly when the identity differs and the connection opens, and then it holds that identity and its client |
| `SftpSource.ParseArgSameIdentityStays` | rplugin/python3/defx/source/sftp.py:81-86 | after a successful parse, the same identity opens no new connection |
| `SftpSource.ParseArgNormalizes` | rplugin/python3/defx/source/sftp.py:87 | with an address the path is the server's `normalize` of the file part, on the new slot's client |
| `SftpSource.ParseArgConnectFailure` | rplugin/python3/defx/source/sftp.py:83-84 | a connection that cannot be opened fails and changes nothing |
| `SftpSource.EscapeAppend` | rplugin/python3/defx/source/sftp.py:49 | escaping distributes over concatenation |
| `SftpSource.EscapeMeaning` | rplugin/python3/defx/source/sftp.py:49 | no line feed survives; a text without one is unchanged, a text with one changes |
| `SftpSource.EscapeNotInjective` | rplugin/python3/defx/source/sftp.py:49 | a line feed and the two characters `\n` escape alike |
| `SftpSource.RootWordShape` | rplugin/python3/defx/source/sftp.py:44-49 | the word has no line feed; a hook's word for the path's text replaces it and is escaped; without a hook it ends in `/` and is `//user@host` plus the path with one `/` added only when missing |
| `SftpSource.RootWordKeepsIdentity` | rplugin/python3/defx/source/sftp.py:44-46 | the root word of an absolute path parses back to the same user and host |
| `SftpSource.ChildCandidatesOfCached` | rplugin/python3/defx/source/sftp.py:63-68 | children with attributes give one candidate each, in order, named by `name` and classified by the mode alone |
| `SftpSource.GatherCandidatesOfListing` | rplugin/python3/defx/source/sftp.py:56-69 | one candidate per listing entry, in order: word the filename, `is_directory` not a regular file, path the child |
| `LocalFs.Stat` | rplugin/python3/defx/kind/sftp.py:61-65 | `stat` succeeds exactly on a path that exists |
| `LocalFs.Mkdir` | rplugin/python3/defx/kind/sftp.py:180 | `mkdir` that succeeds leaves a directory at the path, keeps every entry, adds only directories on the way, and without `exist_ok` the path was free |
| `LocalFs.Touch` | rplugin/python3/defx/kind/sftp.py:217 | `Path.touch()`; stated by `TouchMeaning` |
| `LocalFs.Unlink` | rplugin/python3/defx/kind/sftp.py:299 | `Path.unlink()`; stated by `UnlinkMeaning` |
| `LocalFs.RmTree` | rplugin/python3/defx/kind/sftp.py:297 | `shutil.rmtree`; stated by `RmTreeMeaning` |
| `LocalFs.Symlink` | rplugin/python3/defx/kind/sftp.py:315 | `Path.symlink_to`; stated through `LinkMakesLink` |
| `LocalFs.OsRename` | rplugin/python3/defx/kind/sftp.py:388 | `os.rename`; stated by `OsRenameMeaning` and `OsRenameKeepsParent` |
| `LocalFs.Copy2` | rplugin/python3/defx/kind/sftp.py:305 | `shutil.copy2`; stated by `Copy2Meaning` |
| `LocalFs.CopyTree` | rplugin/python3/defx/kind/sftp.py:303 | `shutil.copytree`; stated by `CopyTreeMeaning` |
| `LocalFs.Move` | rplugin/python3/defx/kind/sftp.py:307 | `shutil.move`; stated by `MoveMeaning` and `MoveIntoDirectory` |
| `LocalFs.TouchMeaning` | rplugin/python3/defx/kind/sftp.py:217 | `touch` leaves something at the path, keeps every entry's type and adds at most a file there |
| `LocalFs.UnlinkMeaning` | rplugin/python3/defx/kind/sftp.py:299 | `unlink` succeeds exactly on a non-directory and removes that entry alone |
| `LocalFs.RmTreeMeaning` | rplugin/python3/defx/kind/sftp.py:297 | `rmtree` succeeds exactly on a real directory other than a root, removes it with everything below, and refuses a link |
| `LocalFs.OsRenameMeaning` | rplugin/python3/defx/kind/sftp.py:388 | a rename puts the old entry and everything below it at the new path and keeps what is unrelated |
| `LocalFs.OsRenameKeepsParent` | rplugin/python3/defx/kind/sftp.py:386-388 | after a successful rename the directory renamed into is still a directory, unless the source was above the target |
| `LocalFs.Copy2Meaning` | rplugin/python3/defx/kind/sftp.py:305 | `copy2` leaves a file with the source's time at the target and changes nothing else |
| `LocalFs.CopyTreeMeaning` | rplugin/python3/defx/kind/sftp.py:303 | `copytree` needs a new target, copies everything below the source there and keeps every entry |
| `LocalFs.MoveMeaning` | rplugin/python3/defx/kind/sftp.py:307 | `shutil.move` into a directory refuses a name taken there, and a missing source raises `FileNotFoundError` |
| `LocalFs.MoveIntoDirectory` | rplugin/python3/defx/kind/sftp.py:307 | moving an entry not above the directory to a free name in it is `os.rename`: the entry and its subtree go below the new name, entries outside both trees stay, and the old path is empty unless the new one is above it |
| `LocalFs.ResolveKept` | rplugin/python3/defx/kind/sftp.py:251 | a change that keeps every entry's type keeps what exists, and keeps what is a directory |
| `FileActions.CheckOverwrite` | rplugin/python3/defx/kind/sftp.py:57-87 | `check_overwrite`; stated by `CheckOverwriteMeaning`, `TimeChoiceMeaning` and `UnderbarIsSibling` |
| `FileActions.Clear` | rplugin/python3/defx/kind/sftp.py:294-299 | removing a destination before a copy or link; stated by `ClearRemovesDestination` |
| `FileActions.Transfer` | rplugin/python3/defx/kind/sftp.py:301-315 | the copy, move or link; stated by the `CopyFileToFreeName`, `CopyDirectoryToFreeName`, `MoveToFreeName` and `LinkMakesLink` lemmas |
| `FileActions.PasteItem` | rplugin/python3/defx/kind/sftp.py:280-316 | one pass of the paste loop; stated by the paste lemmas below |
| `FileActions.CheckOverwriteMeaning` | rplugin/python3/defx/kind/sftp.py:57-87 | without both paths the answer is "skip"; Force gives the destination, Rename the typed path, and No, a dismissed prompt or another number "skip" |
| `FileActions.TimeChoiceMeaning` | rplugin/python3/defx/kind/sftp.py:83-84 | Time gives the source exactly when the destination is strictly older; otherwise "skip" |
| `FileActions.UnderbarIsSibling` | rplugin/python3/defx/kind/sftp.py:85-86 | Underbar gives the destination's sibling named with `_` appended |
| `FileActions.TimeChoiceNeverTransfers` | rplugin/python3/defx/kind/sftp.py:282-289 | answering Time never pastes anything |
| `FileActions.PasteItemSkips` | rplugin/python3/defx/kind/sftp.py:279-289 | a "skip" answer, a vanished source, or a source that is its own destination change nothing |
| `FileActions.ClearRemovesDestination` | rplugin/python3/defx/kind/sftp.py:294-299 | clearing succeeds exactly on an existing entry (a directory other than a root); it leaves nothing at the destination and only removes; a real directory goes with its whole subtree, anything else (a link included, so what it points to stays) is unlinked alone, and every entry not below the destination stays |
| `FileActions.MoveNeverOverwrites` | rplugin/python3/defx/kind/sftp.py:294-307 | a move onto an existing name changes nothing, whatever the answer, and with Force it raises that the destination exists |
| `FileActions.CopyForceReplacesFile` | rplugin/python3/defx/kind/sftp.py:294-305 | copying a file over a file with Force leaves the source's file and time there and changes nothing else |
| `FileActions.LinkMakesLink` | rplugin/python3/defx/kind/sftp.py:313-315 | linking to a free name adds exactly a link to the source |
| `FileActions.CopyFileToFreeName` | rplugin/python3/defx/kind/sftp.py:301-305 | copying a file to a free name in a real directory adds exactly a file with the source's time there |
| `FileActions.CopyDirectoryToFreeName` | rplugin/python3/defx/kind/sftp.py:301-303 | copying a directory to a free name puts a directory with the source's time there, copies the subtree below it, and keeps every entry outside the new tree |
| `FileActions.MoveToFreeName` | rplugin/python3/defx/kind/sftp.py:306-307 | moving an entry to a free name in the target directory puts it and its subtree there, keeps entries outside both trees, and empties the old path unless the new one is above it |
| `FileActions.RemoteClipboardChangesNothing` | rplugin/python3/defx/kind/sftp.py:279-289 | remote candidates are never pasted; the paste fails only if a server request fails |
| `FileActions.PasteItemsStopsAtFailure` | rplugin/python3/defx/kind/sftp.py:279-317 | the first candidate that raises ends the paste |
| `FileActions.PasteOne` | rplugin/python3/defx/kind/sftp.py:280-316 | one candidate, step by step, leaves the state and exception of `PasteItem` |
| `FileActions.Paste` | rplugin/python3/defx/kind/sftp.py:266-325 | the disk and exception are those of `PasteItems`; the clipboard is emptied exactly after a move that raised nothing |
| `FileActions.RemoveEntry` | rplugin/python3/defx/kind/sftp.py:346-351 | one target of `_remove`; stated by `RemoveEntryMeaning` and the lemmas below |
| `FileActions.RemoveAll` | rplugin/python3/defx/kind/sftp.py:333-354 | `_remove`; stated by `ForceSkipsConfirmation` and `RemoveItemsMeaning` |
| `FileActions.RemoveEntryMeaning` | rplugin/python3/defx/kind/sftp.py:348-351 | removing a target only takes entries away, keeps every entry not below the target's path, and on success the target's path is gone |
| `FileActions.RemoveItemsMeaning` | rplugin/python3/defx/kind/sftp.py:345-354 | a removal that raises nothing leaves none of its targets; no removal adds or alters an entry, and every entry below none of the targets stays |
| `FileActions.RemoveLinkToDirectoryRefused` | rplugin/python3/defx/kind/sftp.py:348-349 | a link to a directory goes to `rmtree`, which refuses it, and nothing changes |
| `FileActions.RemoveRemoteFileFails` | rplugin/python3/defx/kind/sftp.py:348-351 | a remote regular file cannot be removed: there is no `unlink` |
| `FileActions.RemoveRemoteDirectoryRemovesLocalTree` | rplugin/python3/defx/kind/sftp.py:348-349 | a remote target the server calls a directory removes the local tree with the same text: success exactly on a real non-root directory, then its subtree goes and the rest stays; otherwise nothing changes |
| `FileActions.ForceSkipsConfirmation` | rplugin/python3/defx/kind/sftp.py:336-343 | `force` as the first argument makes the confirmation irrelevant; otherwise a refused confirmation does nothing |
| `FileActions.RemoveItemsStopsAtFailure` | rplugin/python3/defx/kind/sftp.py:345-354 | the first target that raises ends the removal |
| `FileActions.RemoveOne` | rplugin/python3/defx/kind/sftp.py:346-351 | one target, step by step, leaves the state and exception of `RemoveEntry` |
| `FileActions.Remove` | rplugin/python3/defx/kind/sftp.py:328-354 | the disk and exception are those of `RemoveAll` |
| `FileActions.RenameTarget` | rplugin/python3/defx/kind/sftp.py:363-388 | `_rename` for one answer; stated by `RenameMovesEntry`, `RenameSkipsAndFailures` and `RenameFailureKeeps` |
| `FileActions.RenameMovesEntry` | rplugin/python3/defx/kind/sftp.py:379-388 | renaming to a free path (or one differing only in case): the entry and its subtree end below the new path, entries outside both trees stay, the old path is empty when neither is above the other, and the new path's parent is a directory |
| `FileActions.RenameSkipsAndFailures` | rplugin/python3/defx/kind/sftp.py:363-388 | several targets, an empty answer, an unchanged path, or an existing new path whose text differs in more than case do nothing; a remote target that reaches the rename raises |
| `FileActions.RenameFailureKeeps` | rplugin/python3/defx/kind/sftp.py:386-388 | a rename that raises loses and alters no entry; at most the parents made before it stay |
| `FileActions.Rename` | rplugin/python3/defx/kind/sftp.py:357-397 | the disk and exception are those of `RenameTarget` |
| `FileActions.NewDirectoryAt` | rplugin/python3/defx/kind/sftp.py:158-180 | `_new_directory` for one answer; stated by `NewDirectoryMeaning` |
| `FileActions.NewFileAt` | rplugin/python3/defx/kind/sftp.py:190-217 | `_new_file` for one answer; stated by `NewFileMeaning` |
| `FileActions.NewDirectoryMeaning` | rplugin/python3/defx/kind/sftp.py:172-180 | an existing path is left alone; success on a free path leaves a directory, keeps every entry and adds only directories |
| `FileActions.NewDirectory` | rplugin/python3/defx/kind/sftp.py:153-182 | the disk and exception are those of `NewDirectoryAt` |
| `FileActions.NewFileMeaning` | rplugin/python3/defx/kind/sftp.py:204-217 | an existing path is left alone; every entry keeps its type; success leaves a directory for a name ending in `/` and otherwise a new empty file with the current time, adding only directories besides |
| `FileActions.NewFile` | rplugin/python3/defx/kind/sftp.py:185-220 | the disk and exception are those of `NewFileAt` |
| `FileActions.TouchMakesFile` | rplugin/python3/defx/kind/sftp.py:216-217 | touching a path after making its parent keeps every entry's type and, on success, leaves a new empty file at a path that was free |
| `FileActions.CreateOne` | rplugin/python3/defx/kind/sftp.py:248-260 | one name of `_new_multiple_files`; stated by `CreateOneMeaning` |
| `FileActions.CreateOneMeaning` | rplugin/python3/defx/kind/sftp.py:248-260 | an empty name raises and an existing path changes nothing; every entry keeps its type; success leaves a directory for a name ending in `/` and otherwise a new empty file |
| `FileActions.CreateNamesMeaning` | rplugin/python3/defx/kind/sftp.py:247-260 | when no name raises, every name exists afterwards, and no entry is ever removed or retyped |
| `FileActions.CreateNamesStopsAtFailure` | rplugin/python3/defx/kind/sftp.py:247-260 | the first name that raises ends the loop |
| `FileActions.NewMultipleFilesAt` | rplugin/python3/defx/kind/sftp.py:228-263 | `_new_multiple_files` for one input; stated by `CreateNamesMeaning` and `NoNamesRaises` |
| `FileActions.NoNamesRaises` | rplugin/python3/defx/kind/sftp.py:244-263 | input that splits into no names ends reading an unbound name, having changed nothing |
| `FileActions.CreateName` | rplugin/python3/defx/kind/sftp.py:248-260 | one name, step by step, leaves the state and exception of `CreateOne` |
| `FileActions.NewMultipleFiles` | rplugin/python3/defx/kind/sftp.py:223-263 | the disk and exception are those of `NewMultipleFilesAt` |

## Left out

- `init_client` and `KEY_PATH` (the transport, the RSA key and the SSH
  handshake) are not modelled. Whether a connection opens is a parameter,
  and a ghost counter records each one.
- The server's requests are uninterpreted functions of the path. Nothing
  relates `stat` to `listdir_attr` or to `normalize`.
- All Vim calls are left out: messages, `confirm`, `cwd_input`, buffer
  renames and deletes, redraws, the cursor search. Their answers are
  parameters. `execute_job`, `switch`, `_check_redraw`, `_cd` and the action
  table with its `Kind` class are editor glue, and are left out too.
- `rplugin/python3/defx/column/sftp_mark.py` (the icon column) is not part
  of this model.
- The constructor of the earlier remote path calls `__init__` on the builtin
  `super` and cannot run as written. The model takes the path as the client
  and text that constructor would store.
- `shlex.split` is not modelled. `_new_multiple_files` receives the typed
  text and the list of names it splits into.
- `time.strftime` and the printed sizes are left out. A modification time
  is an integer.
- `FileActions.Lower` models `str.lower` on ASCII letters only.
- Path equality follows pathlib up to Python 3.11, which compares parsed
  parts. Python 3.12 compares the printed form instead, which would make
  `new == old` in `_rename` use the remote path's raw text.
- `LocalFs` models only a link in the last component of a path. Links
  inside a path are not followed.
- `copytree` copies links as links. `touch` and `copy2` through a dangling
  link are reported as a missing file and create nothing.
- `os.makedirs` inside `copytree` is modelled as `Path.mkdir(parents=True)`.
- `LocalFs` does not resolve a `..` part. pathlib keeps `..` as a part,
  and the model uses the parsed path as a literal key, so `/a/..` names an
  entry of its own rather than `/`. A typed name containing `..` in
  `_rename`, `_new_file`, `_new_directory`, `_new_multiple_files` or the
  Rename answer of `check_overwrite` can therefore create or miss an entry
  where the operating system would reach the parent directory. For example,
  renaming `/a/f` to `../g` from `/a` makes a directory `/a/..` in the
  model, whereas `os.rename` moves the file to `/g`.
- A relative path is not resolved against a process working directory.
  The roots `/` and `//` are distinct keys.
- `shutil.move` between devices is not modelled, and permissions are
  ignored. When a move's copy-then-delete fallback fails halfway, the model
  reports the exception without the partial copy.
- `LocalFs.Stat` gives the whole entry rather than an `os.stat_result`, so
  `st_mode`, `st_size` and the other fields are left out.
- `FileActions.PasteItem`: after a move, the buffer rename and the message
  are left out; they do not touch the file system.
- `LocalFs.RmTree` on a directory with no parts (`/`, `//` or `.`) is
  modelled as raising `Busy` and removing nothing. `shutil.rmtree` would
  first delete everything below it, and only the final `rmdir` would raise
  (`EBUSY`, or `EINVAL` for `.`). This case is reachable from `_remove` on
  the root or on a remote directory whose text is `/`.
