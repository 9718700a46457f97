/** The earlier revision of the remote path in source/sftp_path.py. It
    classifies an entry by `lstat` (which does not follow a symbolic link)
    and compares the type bits with one exact type each, and its listing
    yields the bare names. Its constructor (which calls `super.__init__` on
    the builtin `super`) is not part of this model; the path is taken as the
    pair of client and text the constructor would store. */
module LegacySftpPaths {
  import opened Common
  import opened Remote
  import SftpPaths

  datatype LegacyPath = LegacyPath(sftp: Option<Session>, path: string)

  /** `self.sftp.lstat(self.path)` */
  function Lstat(p: LegacyPath, net: Network): (r: Result<Attributes, Error>)
  {
    match ServerOf(p.sftp, net)
    case Err(e) => Err(e)
    case Ok(server) => server.lstat(p.path)
  }

  /** `p.is_dir()`: the lstat type bits are exactly the directory type. */
  function IsDir(p: LegacyPath, net: Network): (r: Result<bool, Error>)
  {
    match Lstat(p, net)
    case Err(e) => Err(e)
    case Ok(attrs) => Ok(IFMT(attrs.mode) == S_IFDIR)
  }

  /** `p.is_symlink()`: the lstat type bits are exactly the link type. */
  function IsSymlink(p: LegacyPath, net: Network): (r: Result<bool, Error>)
  {
    match Lstat(p, net)
    case Err(e) => Err(e)
    case Ok(attrs) => Ok(IFMT(attrs.mode) == S_IFLNK)
  }

  /** `p.iterdir()`: one path per name `listdir` returns, made from the name
      alone. */
  function IterDir(p: LegacyPath, net: Network): (r: Result<seq<LegacyPath>, Error>)
  {
    match ServerOf(p.sftp, net)
    case Err(e) => Err(e)
    case Ok(server) =>
      match ListDir(server, p.path)
      case Err(e) => Err(e)
      case Ok(names) => Ok(seq(|names|, i requires 0 <= i < |names| => LegacyPath(p.sftp, names[i])))
  }

  // ---------------------------------------------------------------------------
  // Properties
  // ---------------------------------------------------------------------------

  /** Both classifications read the same lstat type bits against two
      different types, so no entry is both a directory and a link, and each
      is true exactly for its own type. */
  lemma ClassificationMeaning(p: LegacyPath, net: Network)
    ensures !(IsDir(p, net) == Ok(true) && IsSymlink(p, net) == Ok(true))
    ensures IsDir(p, net).Ok? <==> Lstat(p, net).Ok?
    ensures IsSymlink(p, net).Ok? <==> Lstat(p, net).Ok?
    ensures Lstat(p, net).Ok? ==>
              (IsDir(p, net).value <==> IsDirMode(Lstat(p, net).value.mode)) &&
              (IsSymlink(p, net).value <==> IsLinkMode(Lstat(p, net).value.mode))
  {
  }

  /** A link to a directory is a link and not a directory: what it points
      to (what `stat` would say) plays no part. */
  lemma LinkToDirectoryIsLink(p: LegacyPath, net: Network)
    requires Lstat(p, net).Ok? && IsLinkMode(Lstat(p, net).value.mode)
    ensures IsDir(p, net) == Ok(false) && IsSymlink(p, net) == Ok(true)
  {
  }

  /** The listing yields the bare names, in the server's order: each is what
      the later revision's child would be without the parent's text and
      slash in front. */
  lemma IterDirBareNames(p: LegacyPath, net: Network)
    requires p.sftp.Some? && net(p.sftp.value).listdirAttr(p.path).Ok?
    ensures var entries := net(p.sftp.value).listdirAttr(p.path).value;
            var later := SftpPaths.SftpPath(p.sftp, p.path, None);
            IterDir(p, net).Ok? && SftpPaths.IterDir(later, net).Ok? &&
            |IterDir(p, net).value| == |entries| == |SftpPaths.IterDir(later, net).value| &&
            forall i :: 0 <= i < |entries| ==>
              IterDir(p, net).value[i].path == entries[i].filename &&
              SftpPaths.IterDir(later, net).value[i].path ==
                p.path + "/" + IterDir(p, net).value[i].path
  {
  }

  /** The two revisions disagree on a symbolic link: for the same entry, the
      later one calls it a directory, this one does not. */
  lemma RevisionsDisagreeOnLinks(p: LegacyPath, net: Network, attrs: Attributes)
    requires Lstat(p, net) == Ok(attrs) && IsLinkMode(attrs.mode)
    ensures var later := SftpPaths.SftpPath(p.sftp, p.path, Some(attrs));
            SftpPaths.IsDir(later, net) == Ok(true) && IsDir(p, net) == Ok(false)
  {
  }

  /** On a directory or a regular file that is not a link the two revisions
      agree. */
  lemma RevisionsAgreeOffLinks(p: LegacyPath, net: Network, attrs: Attributes)
    requires Lstat(p, net) == Ok(attrs) && (IsDirMode(attrs.mode) || IsRegularMode(attrs.mode))
    ensures var later := SftpPaths.SftpPath(p.sftp, p.path, Some(attrs));
            SftpPaths.IsDir(later, net) == IsDir(p, net) &&
            SftpPaths.IsSymlink(later, net) == IsSymlink(p, net)
  {
  }
}
