/** The remote path value of sftp/sftp_path.py: a pure path that carries the
    client it was made with, its raw text and, for listing entries, the
    attributes the listing returned. Every field is set once, at creation;
    nothing here changes after that, so the value is a datatype. */
module SftpPaths {
  import opened Common
  import opened Remote
  import PurePaths

  /** `SFTPPath(sftp, path, stat)`: `sftp` is `None` before any connection. */
  datatype SftpPath = SftpPath(sftp: Option<Session>, path: string, cached: Option<Attributes>)

  /** `str(p)` is the stored text, with no normalisation. */
  function Str(p: SftpPath): (r: string)
  {
    p.path
  }

  /** `p == other` compares `str(p)` with `str(other)`; `otherText` is the
      latter. */
  predicate Equals(p: SftpPath, otherText: string)
  {
    Str(p) == otherText
  }

  /** `p.name`, inherited from the pure path built from the same text. */
  function Name(p: SftpPath): (r: string)
  {
    PurePaths.Name(PurePaths.Parse(p.path))
  }

  /** `p.joinpath(name, stat)`: the parent's text, a slash and the name,
      with the same client and the attributes given. */
  function JoinPath(p: SftpPath, name: string, attrs: Option<Attributes>): (r: SftpPath)
    ensures Str(r) == Str(p) + "/" + name
    ensures r.sftp == p.sftp && r.cached == attrs
  {
    SftpPath(p.sftp, p.path + "/" + name, attrs)
  }

  /** `p.relative_to(other)` ignores `other`. */
  function RelativeTo(p: SftpPath, other: string): (r: SftpPath)
    ensures r == p
  {
    p
  }

  /** `p.stat()`: the attributes carried by `p` if there are any, else the
      server's answer for the text of `p` (which is not kept). */
  function Stat(p: SftpPath, net: Network): (r: Result<Attributes, Error>)
  {
    match p.cached
    case Some(attrs) => Ok(attrs)
    case None =>
      match ServerOf(p.sftp, net)
      case Err(e) => Err(e)
      case Ok(server) => server.stat(p.path)
  }

  /** `p.exists()`: `Ok(Some(false))` when the server says the path is
      missing, `Ok(None)` (Python's `None`) when `stat` succeeds, and the
      error itself for any other failure. */
  function Exists(p: SftpPath, net: Network): (r: Result<Option<bool>, Error>)
  {
    match Stat(p, net)
    case Ok(_) => Ok(None)
    case Err(NoSuchFile) => Ok(Some(false))
    case Err(e) => Err(e)
  }

  /** `p.is_dir()`: true for every type other than a regular file. */
  function IsDir(p: SftpPath, net: Network): (r: Result<bool, Error>)
  {
    match Stat(p, net)
    case Err(e) => Err(e)
    case Ok(attrs) => Ok(!IsRegularMode(attrs.mode))
  }

  /** `p.is_symlink()`, from the same `stat` answer. */
  function IsSymlink(p: SftpPath, net: Network): (r: Result<bool, Error>)
  {
    match Stat(p, net)
    case Err(e) => Err(e)
    case Ok(attrs) => Ok(IsLinkMode(attrs.mode))
  }

  /** The child `iterdir` yields for one listing entry. */
  function Child(p: SftpPath, entry: Attributes): (r: SftpPath)
  {
    JoinPath(p, entry.filename, Some(entry))
  }

  /** `p.iterdir()`: one child per `listdir_attr` entry, in the server's order. */
  function IterDir(p: SftpPath, net: Network): (r: Result<seq<SftpPath>, Error>)
  {
    match ServerOf(p.sftp, net)
    case Err(e) => Err(e)
    case Ok(server) =>
      match server.listdirAttr(p.path)
      case Err(e) => Err(e)
      case Ok(entries) => Ok(seq(|entries|, i requires 0 <= i < |entries| => Child(p, entries[i])))
  }

  // ---------------------------------------------------------------------------
  // Properties
  // ---------------------------------------------------------------------------

  /** Joining twice gives the text of joining the two names with a slash:
      `joinpath` never normalises. */
  lemma JoinPathTwice(p: SftpPath, x: string, y: string, a: Option<Attributes>, b: Option<Attributes>)
    ensures Str(JoinPath(JoinPath(p, x, a), y, b)) == Str(JoinPath(p, x + "/" + y, b))
    ensures JoinPath(JoinPath(p, x, a), y, b) == JoinPath(p, x + "/" + y, b)
  {
    assert p.path + "/" + x + "/" + y == p.path + "/" + (x + "/" + y);
  }

  /** Equality looks at the text alone: two paths with the same text are
      equal whatever their clients and attributes, and paths with different
      texts are not. */
  lemma EqualsIsTextEquality(p: SftpPath, q: SftpPath)
    ensures Equals(p, Str(q)) <==> p.path == q.path
    ensures Equals(p, Str(q)) <==> Equals(q, Str(p))
  {
  }

  /** Attributes carried by a path answer `stat` with no server request: the
      answer is the same for every network, even one without a client. */
  lemma StatUsesCache(p: SftpPath, net: Network, net': Network)
    requires p.cached.Some?
    ensures Stat(p, net) == Stat(p, net') == Ok(p.cached.value)
  {
  }

  /** Without attributes, `stat` asks the server each time: its answer is
      whatever the server answers now, and a server that changes is seen to
      change. */
  lemma StatAsksServer(p: SftpPath, net: Network)
    requires p.cached.None?
    ensures p.sftp.None? ==> Stat(p, net) == Err(NoClient)
    ensures p.sftp.Some? ==> Stat(p, net) == net(p.sftp.value).stat(p.path)
  {
  }

  /** `exists` never answers true: it answers false exactly when `stat`
      reports a missing path, Python's `None` exactly when `stat` succeeds,
      and fails with every other error of `stat`. */
  lemma ExistsMeaning(p: SftpPath, net: Network)
    ensures Exists(p, net) != Ok(Some(true))
    ensures Exists(p, net) == Ok(Some(false)) <==> Stat(p, net) == Err(NoSuchFile)
    ensures Exists(p, net) == Ok(None) <==> Stat(p, net).Ok?
    ensures Exists(p, net).Err? <==> Stat(p, net).Err? && Stat(p, net) != Err(NoSuchFile)
  {
  }

  /** `is_dir` holds exactly when the mode is not a regular file's, so a
      symbolic link, a device or a socket all count as directories, and a
      symbolic link is reported as a link and a directory at once. */
  lemma IsDirMeaning(p: SftpPath, net: Network)
    ensures IsDir(p, net).Ok? <==> Stat(p, net).Ok?
    ensures IsDir(p, net).Ok? ==> (IsDir(p, net).value <==> !IsRegularMode(Stat(p, net).value.mode))
    ensures IsSymlink(p, net) == Ok(true) ==> IsDir(p, net) == Ok(true)
    ensures IsDir(p, net) == Ok(false) ==> IsSymlink(p, net) == Ok(false)
  {
  }

  /** The children of a listing: one per entry, in the server's order, each
      with the parent's client, the text `parent + "/" + filename`, the
      entry's own attributes and, for an ordinary filename, that filename
      as its name. Classifying a child needs no server: it answers from the
      entry's mode for every network. */
  lemma IterDirChildren(p: SftpPath, net: Network, net': Network)
    requires p.sftp.Some?
    requires net(p.sftp.value).listdirAttr(p.path).Ok?
    ensures var entries := net(p.sftp.value).listdirAttr(p.path).value;
            IterDir(p, net).Ok? && |IterDir(p, net).value| == |entries| &&
            forall i :: 0 <= i < |entries| ==>
              var c := IterDir(p, net).value[i];
              c.sftp == p.sftp && Str(c) == Str(p) + "/" + entries[i].filename &&
              Stat(c, net') == Ok(entries[i]) &&
              IsDir(c, net') == Ok(!IsRegularMode(entries[i].mode)) &&
              IsSymlink(c, net') == Ok(IsLinkMode(entries[i].mode)) &&
              (PurePaths.IsPart(entries[i].filename) ==> Name(c) == entries[i].filename)
  {
    var entries := net(p.sftp.value).listdirAttr(p.path).value;
    forall i | 0 <= i < |entries|
      ensures PurePaths.IsPart(entries[i].filename) ==>
                Name(IterDir(p, net).value[i]) == entries[i].filename
    {
      if PurePaths.IsPart(entries[i].filename) {
        PurePaths.NameOfChild(p.path, entries[i].filename);
      }
    }
  }

  /** A listing fails exactly when there is no client or the server refuses it. */
  lemma IterDirFails(p: SftpPath, net: Network)
    ensures IterDir(p, net).Err? <==>
              p.sftp.None? || net(p.sftp.value).listdirAttr(p.path).Err?
  {
  }
}
