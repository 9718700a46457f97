/** The SFTP server as the plugin sees it through paramiko, and the POSIX
    file-type bits it classifies entries by. The server's answers are left
    uninterpreted: each request is a function of the path it names. */
module Remote {
  import opened Common

  /** Why a server request fails: the path is missing (paramiko raises
      `FileNotFoundError`), some other I/O error, or there is no client to
      send the request on (`None.stat(...)` raises `AttributeError`), or the
      connection itself could not be opened. */
  datatype Error = NoSuchFile | IoFailure(errno: int) | NoClient | ConnectFailed

  /** An `SFTPAttributes` record: the entry's name in a listing, its mode,
      size and modification time. */
  datatype Attributes = Attributes(filename: string, mode: nat, size: nat, mtime: int)

  /** What a server answers to each request, as a function of the path. */
  datatype Server = Server(
    normalize: string -> Result<string, Error>,
    stat: string -> Result<Attributes, Error>,
    lstat: string -> Result<Attributes, Error>,
    listdirAttr: string -> Result<seq<Attributes>, Error>)

  /** A connected client, known by the identity it was opened for. */
  datatype Session = Session(username: string, hostname: string)

  /** The server behind each client. */
  type Network = Session -> Server

  /** The server a request on a path object goes to, by the client the
      object holds; without a client the request fails. */
  function ServerOf(client: Option<Session>, net: Network): (r: Result<Server, Error>)
    ensures r.Ok? <==> client.Some?
    ensures r.Ok? ==> r.value == net(client.value)
  {
    match client
    case None => Err(NoClient)
    case Some(session) => Ok(net(session))
  }

  /** `listdir`: the names of the entries `listdir_attr` returns, in the
      server's order. */
  function ListDir(server: Server, path: string): (r: Result<seq<string>, Error>)
    ensures server.listdirAttr(path).Err? <==> r.Err?
    ensures r.Ok? ==> |r.value| == |server.listdirAttr(path).value|
    ensures r.Ok? ==> forall i :: 0 <= i < |r.value| ==>
              r.value[i] == server.listdirAttr(path).value[i].filename
  {
    match server.listdirAttr(path)
    case Err(e) => Err(e)
    case Ok(entries) => Ok(seq(|entries|, i requires 0 <= i < |entries| => entries[i].filename))
  }

  // The type values of Python's `stat` module (octal 0o040000, 0o100000 and
  // 0o120000).
  const S_IFDIR: nat := 0x4000
  const S_IFREG: nat := 0x8000
  const S_IFLNK: nat := 0xA000

  /** `stat.S_IFMT(mode)`, that is `mode & 0o170000`: the four type bits,
      kept in place. */
  function IFMT(mode: nat): (r: nat)
    ensures r % 0x1000 == 0 && r < 0x10000
    ensures r / 0x1000 == mode / 0x1000 % 16
  {
    mode / 0x1000 % 16 * 0x1000
  }

  /** `stat.S_ISREG(mode)` */
  predicate IsRegularMode(mode: nat)
  {
    IFMT(mode) == S_IFREG
  }

  /** `stat.S_ISLNK(mode)` */
  predicate IsLinkMode(mode: nat)
  {
    IFMT(mode) == S_IFLNK
  }

  /** `stat.S_ISDIR(mode)` */
  predicate IsDirMode(mode: nat)
  {
    IFMT(mode) == S_IFDIR
  }

  /** The type bits decide the type alone: permission bits (the low twelve)
      play no part. */
  lemma IFMTIgnoresPermissions(mode: nat, perm: nat)
    requires perm < 0x1000
    ensures IFMT(mode / 0x1000 * 0x1000 + perm) == IFMT(mode)
  {
    var t := mode / 0x1000;
    assert (t * 0x1000 + perm) / 0x1000 == t;
  }

  /** A mode has at most one type. */
  lemma TypesExclusive(mode: nat)
    ensures !(IsRegularMode(mode) && IsLinkMode(mode))
    ensures !(IsRegularMode(mode) && IsDirMode(mode))
    ensures !(IsLinkMode(mode) && IsDirMode(mode))
  {
  }
}
