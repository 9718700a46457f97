/** The `sftp` source of source/sftp.py: it reads a `//user@host/path`
    argument, keeps one connection slot (the client and the identity it was
    opened for), and turns a path into the root candidate and a listing into
    candidates. Opening a connection (`init_client`: transport, RSA key from
    `~/.ssh/id_rsa`) is not part of this model; whether it succeeds for an
    identity is a parameter, and a ghost counter records how often it ran. */
module SftpSource {
  import opened Common
  import opened Remote
  import opened AddressPatterns
  import SftpPaths
  import PurePaths

  /** One entry of the list a source returns to defx. */
  datatype Candidate = Candidate(word: string, isDirectory: bool, path: SftpPaths.SftpPath)

  /** The connection slot: `client`, `username` and `hostname`. */
  datatype Slot = Slot(client: Option<Session>, username: string, hostname: string)

  /** Either nothing was ever opened (the slot is as `__init__` leaves it),
      or the client is the one opened for the stored identity, which is not
      empty. */
  predicate SlotValid(slot: Slot)
  {
    || (slot.client.None? && slot.username == "" && slot.hostname == "")
    || (slot.client == Some(Session(slot.username, slot.hostname)) && slot.username != "" && slot.hostname != "")
  }

  /** The slot after `__init__`. */
  function InitialSlot(): (r: Slot)
    ensures SlotValid(r)
  {
    Slot(None, "", "")
  }

  /** `_parse_arg` opens a new connection for `arg`: it names an identity
      other than the stored one. */
  predicate Reconnects(slot: Slot, arg: string)
  {
    && ParseAddress(arg).Some?
    && (ParseAddress(arg).value.username != slot.username || ParseAddress(arg).value.hostname != slot.hostname)
  }

  /** What `_parse_arg(arg)` does to the slot and what it returns. Without an
      address the argument is wrapped as it is, on the current client. With
      one, a new client is opened when the identity differs (a failed
      connection raises and leaves the slot as it was), and the path is the
      server's `normalize` of the file part. */
  function ParseArgSpec(slot: Slot, arg: string, net: Network, canConnect: Session -> bool): (Slot, Result<SftpPaths.SftpPath, Error>)
  {
    match ParseAddress(arg)
    case None => (slot, Ok(SftpPaths.SftpPath(slot.client, arg, None)))
    case Some(a) =>
      var session := Session(a.username, a.hostname);
      if Reconnects(slot, arg) && !canConnect(session) then (slot, Err(ConnectFailed))
      else
        var slot' := if Reconnects(slot, arg) then Slot(Some(session), a.username, a.hostname) else slot;
        match slot'.client
        case None => (slot', Err(NoClient))
        case Some(client) =>
          match net(client).normalize(a.file)
          case Err(e) => (slot', Err(e))
          case Ok(normalized) => (slot', Ok(SftpPaths.SftpPath(slot'.client, normalized, None)))
  }

  /** `s.replace('\n', '\\n')`: every line feed becomes a backslash and `n`. */
  function Escape(s: string): (r: string)
  {
    if s == [] then []
    else (if s[0] == '\n' then "\\n" else [s[0]]) + Escape(s[1..])
  }

  /** The root's display word for `path` under the identity `username@hostname`:
      `//user@host` and the path, with a `/` appended unless it already ends
      in one; a root hook (the Vim function `vars['root']` names, given the
      path) replaces it; then line feeds are escaped. */
  function RootWord(username: string, hostname: string, path: SftpPaths.SftpPath,
                    rootHook: Option<string -> string>): (r: string)
  {
    var word := "//" + username + "@" + hostname + SftpPaths.Str(path);
    var slashed := if word[|word| - 1] != '/' then word + "/" else word;
    var hooked := match rootHook case Some(hook) => hook(SftpPaths.Str(path)) case None => slashed;
    Escape(hooked)
  }

  /** The candidates for the children of a listing, from its first entry on;
      classifying a child may fail, and the first failure is the result. */
  function ChildCandidates(children: seq<SftpPaths.SftpPath>, net: Network): (r: Result<seq<Candidate>, Error>)
  {
    if children == [] then Ok([])
    else
      match ChildCandidates(children[..|children| - 1], net)
      case Err(e) => Err(e)
      case Ok(front) =>
        var child := children[|children| - 1];
        match SftpPaths.IsDir(child, net)
        case Err(e) => Err(e)
        case Ok(isDir) => Ok(front + [Candidate(SftpPaths.Name(child), isDir, child)])
  }

  /** What `gather_candidates` returns for the path `_parse_arg` produced. */
  function ListingCandidates(path: Result<SftpPaths.SftpPath, Error>, net: Network): (r: Result<seq<Candidate>, Error>)
  {
    match path
    case Err(e) => Err(e)
    case Ok(p) =>
      match SftpPaths.IterDir(p, net)
      case Err(e) => Err(e)
      case Ok(children) => ChildCandidates(children, net)
  }

  class Source {
    var client: Option<Session>
    var username: string
    var hostname: string
    /** How many connections `init_client` has opened. */
    ghost var connections: nat

    function Connection(): (r: Slot)
      reads this
    {
      Slot(client, username, hostname)
    }

    ghost predicate Valid()
      reads this
    {
      SlotValid(Connection())
    }

    /** `__init__`: no client and an empty identity. */
    constructor()
      ensures Valid() && Connection() == InitialSlot() && connections == 0
    {
      client := None;
      username := "";
      hostname := "";
      connections := 0;
    }

    /** `_parse_arg(arg)`. */
    method ParseArg(arg: string, net: Network, canConnect: Session -> bool)
      returns (r: Result<SftpPaths.SftpPath, Error>)
      requires Valid()
      modifies this
      ensures Valid()
      ensures (Connection(), r) == ParseArgSpec(old(Connection()), arg, net, canConnect)
      ensures connections == old(connections) + (if Connection() != old(Connection()) then 1 else 0)
    {
      var address := ParseAddress(arg);
      if address.None? {
        return Ok(SftpPaths.SftpPath(client, arg, None));
      }
      var a := address.value;
      if a.username != username || a.hostname != hostname {
        var session := Session(a.username, a.hostname);
        if !canConnect(session) {
          return Err(ConnectFailed);
        }
        client := Some(session);
        connections := connections + 1;
        username := a.username;
        hostname := a.hostname;
      }
      match client {
        case None =>
          r := Err(NoClient);
        case Some(c) =>
          var normalized := net(c).normalize(a.file);
          r := match normalized
               case Err(e) => Err(e)
               case Ok(n) => Ok(SftpPaths.SftpPath(client, n, None));
      }
    }

    /** `get_root_candidate(context, path)`, where `arg` is `str(path)`. */
    method GetRootCandidate(arg: string, net: Network, canConnect: Session -> bool,
                            rootHook: Option<string -> string>)
      returns (r: Result<Candidate, Error>)
      requires Valid()
      modifies this
      ensures Valid()
      ensures var (slot, parsed) := ParseArgSpec(old(Connection()), arg, net, canConnect);
              && Connection() == slot
              && (parsed.Err? ==> r == Err(parsed.error))
              && (parsed.Ok? ==> r == Ok(Candidate(RootWord(username, hostname, parsed.value, rootHook),
                                                   true, parsed.value)))
      ensures connections == old(connections) + (if Connection() != old(Connection()) then 1 else 0)
    {
      var parsed := ParseArg(arg, net, canConnect);
      if parsed.Err? {
        return Err(parsed.error);
      }
      var path := parsed.value;
      var word := "//" + username + "@" + hostname + SftpPaths.Str(path);
      if word[|word| - 1] != '/' {
        word := word + "/";
      }
      if rootHook.Some? {
        word := rootHook.value(SftpPaths.Str(path));
      }
      word := Escape(word);
      return Ok(Candidate(word, true, path));
    }

    /** `gather_candidates(context, path)`, where `arg` is `str(path)`. */
    method GatherCandidates(arg: string, net: Network, canConnect: Session -> bool)
      returns (r: Result<seq<Candidate>, Error>)
      requires Valid()
      modifies this
      ensures Valid()
      ensures var (slot, parsed) := ParseArgSpec(old(Connection()), arg, net, canConnect);
              Connection() == slot && r == ListingCandidates(parsed, net)
      ensures connections == old(connections) + (if Connection() != old(Connection()) then 1 else 0)
    {
      var parsed := ParseArg(arg, net, canConnect);
      if parsed.Err? {
        return Err(parsed.error);
      }
      var listing := SftpPaths.IterDir(parsed.value, net);
      if listing.Err? {
        return Err(listing.error);
      }
      r := CollectCandidates(listing.value, net);
    }
  }

  /** The loop of `gather_candidates`: one candidate per child, in order,
      named by the child's `name` and classified by its `is_dir()`. */
  method CollectCandidates(children: seq<SftpPaths.SftpPath>, net: Network)
    returns (r: Result<seq<Candidate>, Error>)
    ensures r == ChildCandidates(children, net)
  {
    var candidates: seq<Candidate> := [];
    var i := 0;
    while i < |children|
      invariant 0 <= i <= |children|
      invariant ChildCandidates(children[..i], net) == Ok(candidates)
    {
      var child := children[i];
      var isDir := SftpPaths.IsDir(child, net);
      if isDir.Err? {
        assert children[..i + 1][..i] == children[..i];
        ChildCandidatesStopsAtError(children, i + 1, net);
        return Err(isDir.error);
      }
      candidates := candidates + [Candidate(SftpPaths.Name(child), isDir.value, child)];
      assert children[..i + 1][..i] == children[..i];
      i := i + 1;
    }
    assert children[..i] == children;
    return Ok(candidates);
  }

  /** The first failing child decides the result: later children are not
      looked at. */
  lemma {:induction false} ChildCandidatesStopsAtError(children: seq<SftpPaths.SftpPath>, k: nat, net: Network)
    requires k <= |children|
    requires ChildCandidates(children[..k], net).Err?
    ensures ChildCandidates(children, net) == ChildCandidates(children[..k], net)
    decreases |children| - k
  {
    if k < |children| {
      assert children[..|children| - 1][..k] == children[..k];
      ChildCandidatesStopsAtError(children[..|children| - 1], k, net);
    } else {
      assert children[..k] == children;
    }
  }

  // ---------------------------------------------------------------------------
  // The connection slot
  // ---------------------------------------------------------------------------

  /** `_parse_arg` keeps the slot valid. */
  lemma ParseArgKeepsSlotValid(slot: Slot, arg: string, net: Network, canConnect: Session -> bool)
    requires SlotValid(slot)
    ensures SlotValid(ParseArgSpec(slot, arg, net, canConnect).0)
  {
  }

  /** An argument without `//…@…` is wrapped verbatim on the current client,
      and the slot is left as it is. */
  lemma ParseArgWithoutAddress(slot: Slot, arg: string, net: Network, canConnect: Session -> bool)
    requires ParseAddress(arg).None?
    ensures ParseArgSpec(slot, arg, net, canConnect) == (slot, Ok(SftpPaths.SftpPath(slot.client, arg, None)))
  {
  }

  /** The slot changes exactly when the argument names another identity and
      the connection to it opens; it then holds that identity and a client
      for it. When it does not change, no connection is opened. */
  lemma ParseArgSlotChange(slot: Slot, arg: string, net: Network, canConnect: Session -> bool)
    ensures var slot' := ParseArgSpec(slot, arg, net, canConnect).0;
            (slot' != slot <==> Reconnects(slot, arg) &&
                                canConnect(Session(ParseAddress(arg).value.username, ParseAddress(arg).value.hostname)))
    ensures var slot' := ParseArgSpec(slot, arg, net, canConnect).0;
            slot' != slot ==>
              var a := ParseAddress(arg).value;
              slot' == Slot(Some(Session(a.username, a.hostname)), a.username, a.hostname)
  {
  }

  /** After an argument's identity has been taken, the same argument (or any
      other with that identity) opens no further connection: the slot stays. */
  lemma ParseArgSameIdentityStays(slot: Slot, arg: string, arg': string, net: Network, canConnect: Session -> bool)
    requires ParseAddress(arg).Some? && ParseAddress(arg').Some?
    requires ParseAddress(arg').value.username == ParseAddress(arg).value.username
    requires ParseAddress(arg').value.hostname == ParseAddress(arg).value.hostname
    requires ParseArgSpec(slot, arg, net, canConnect).1.Ok?
    ensures var slot' := ParseArgSpec(slot, arg, net, canConnect).0;
            ParseArgSpec(slot', arg', net, canConnect).0 == slot'
  {
  }

  /** With an address the result, when there is one, is the server's
      `normalize` of the file part, asked on the client of the new slot, and
      carries that client. */
  lemma ParseArgNormalizes(slot: Slot, arg: string, net: Network, canConnect: Session -> bool)
    requires SlotValid(slot)
    requires ParseAddress(arg).Some?
    requires ParseArgSpec(slot, arg, net, canConnect).1.Ok?
    ensures var a := ParseAddress(arg).value;
            var (slot', r) := ParseArgSpec(slot, arg, net, canConnect);
            && slot'.client == Some(Session(a.username, a.hostname))
            && r.value.sftp == slot'.client
            && net(Session(a.username, a.hostname)).normalize(a.file) == Ok(r.value.path)
  {
  }

  /** A connection that cannot be opened fails `_parse_arg` and changes nothing. */
  lemma ParseArgConnectFailure(slot: Slot, arg: string, net: Network, canConnect: Session -> bool)
    requires Reconnects(slot, arg)
    requires !canConnect(Session(ParseAddress(arg).value.username, ParseAddress(arg).value.hostname))
    ensures ParseArgSpec(slot, arg, net, canConnect) == (slot, Err(ConnectFailed))
  {
  }

  // ---------------------------------------------------------------------------
  // The root word
  // ---------------------------------------------------------------------------

  lemma {:induction false} EscapeAppend(a: string, b: string)
    ensures Escape(a + b) == Escape(a) + Escape(b)
  {
    if a != [] {
      assert (a + b)[1..] == a[1..] + b;
      EscapeAppend(a[1..], b);
    } else {
      assert a + b == b;
    }
  }

  /** Escaping removes every line feed, leaves a text without one as it is,
      and changes every text that has one. */
  lemma {:induction false} EscapeMeaning(s: string)
    ensures '\n' !in Escape(s)
    ensures Escape(s) == s <==> '\n' !in s
    ensures |Escape(s)| >= |s|
  {
    if s != [] {
      EscapeMeaning(s[1..]);
      assert s == [s[0]] + s[1..];
      if s[0] == '\n' {
        assert |Escape(s)| == |Escape(s[1..])| + 2;
      } else {
        assert Escape(s) == [s[0]] + Escape(s[1..]);
      }
    }
  }

  /** Escaping forgets the difference between a line feed and the two
      characters that stand for it. */
  lemma EscapeNotInjective()
    ensures Escape("\n") == Escape("\\n") == "\\n"
  {
    assert Escape("\\n") == "\\" + Escape("n");
  }

  /** The root word never holds a line feed. A hook's word for the path's
      text replaces the whole word and is escaped. Without a hook it ends in `/`,
      and for an identity and path free of line feeds it is `//user@host`
      and the path's text with one `/` appended when that text does not
      already end in one (or when it is empty). */
  lemma RootWordShape(username: string, hostname: string, path: SftpPaths.SftpPath,
                      rootHook: Option<string -> string>)
    ensures '\n' !in RootWord(username, hostname, path, rootHook)
    ensures rootHook.Some? ==>
              RootWord(username, hostname, path, rootHook) == Escape(rootHook.value(SftpPaths.Str(path)))
    ensures rootHook.None? ==>
              var w := RootWord(username, hostname, path, rootHook);
              |w| > 0 && w[|w| - 1] == '/'
    ensures rootHook.None? && '\n' !in username && '\n' !in hostname && '\n' !in path.path ==>
              var plain := "//" + username + "@" + hostname + SftpPaths.Str(path);
              RootWord(username, hostname, path, rootHook) ==
                if plain[|plain| - 1] == '/' then plain else plain + "/"
  {
    var text := SftpPaths.Str(path);
    var word := "//" + username + "@" + hostname + text;
    var slashed := if word[|word| - 1] != '/' then word + "/" else word;
    var hooked := match rootHook case Some(hook) => hook(text) case None => slashed;
    EscapeMeaning(hooked);
    if rootHook.None? {
      if word[|word| - 1] != '/' {
        EscapeAppend(word, "/");
        assert Escape("/") == "/" + Escape("");
      } else {
        var front := word[..|word| - 1];
        assert word == front + "/";
        EscapeAppend(front, "/");
        assert Escape("/") == "/" + Escape("");
      }
      if '\n' !in username && '\n' !in hostname && '\n' !in path.path {
        assert '\n' !in slashed;
      }
    }
  }

  /** Shown again as an argument, the root word of a usual absolute path
      names the same identity, so it opens no new connection. */
  lemma RootWordKeepsIdentity(username: string, hostname: string, path: SftpPaths.SftpPath)
    requires username != "" && '\n' !in username
    requires hostname != "" && '/' !in hostname && '@' !in hostname && '\n' !in hostname
    requires path.path != [] && path.path[0] == '/' && '@' !in path.path && '\n' !in path.path
    ensures var a := ParseAddress(RootWord(username, hostname, path, None));
            a.Some? && a.value.username == username && a.value.hostname == hostname
  {
    RootWordShape(username, hostname, path, None);
    var text := path.path;
    var rest := text[1..];
    var front := "//" + username + "@" + hostname;
    assert text == "/" + rest;
    assert forall t :: 0 <= t < |rest| ==> rest[t] == text[t + 1];
    assert front + text == front + "/" + rest;
    if text[|text| - 1] == '/' {
      ParseFormattedAddress(username, hostname, rest);
    } else {
      assert front + text + "/" == front + "/" + (rest + "/");
      ParseFormattedAddress(username, hostname, rest + "/");
    }
  }

  // ---------------------------------------------------------------------------
  // The listing
  // ---------------------------------------------------------------------------

  /** Children that carry their attributes give one candidate each, in
      order, named by the child's `name` and classified by the attributes'
      mode alone. */
  lemma {:induction false} ChildCandidatesOfCached(children: seq<SftpPaths.SftpPath>, net: Network)
    requires forall i :: 0 <= i < |children| ==> children[i].cached.Some?
    ensures ChildCandidates(children, net).Ok?
    ensures |ChildCandidates(children, net).value| == |children|
    ensures forall i :: 0 <= i < |children| ==>
              ChildCandidates(children, net).value[i] ==
                Candidate(SftpPaths.Name(children[i]), !IsRegularMode(children[i].cached.value.mode), children[i])
  {
    if children != [] {
      ChildCandidatesOfCached(children[..|children| - 1], net);
    }
  }

  /** `gather_candidates` on a path whose listing succeeds: exactly one
      candidate per listing entry, in the server's order; the word is the
      entry's filename (for any ordinary filename), `is_directory` says the
      entry is not a regular file, and the candidate's path is the child. */
  lemma GatherCandidatesOfListing(p: SftpPaths.SftpPath, net: Network)
    requires p.sftp.Some? && net(p.sftp.value).listdirAttr(p.path).Ok?
    ensures var entries := net(p.sftp.value).listdirAttr(p.path).value;
            var r := ListingCandidates(Ok(p), net);
            && r.Ok? && |r.value| == |entries|
            && forall i :: 0 <= i < |entries| ==>
                 && r.value[i].isDirectory == !IsRegularMode(entries[i].mode)
                 && r.value[i].path == SftpPaths.Child(p, entries[i])
                 && (PurePaths.IsPart(entries[i].filename) ==> r.value[i].word == entries[i].filename)
  {
    var children := SftpPaths.IterDir(p, net).value;
    ChildCandidatesOfCached(children, net);
    SftpPaths.IterDirChildren(p, net, net);
  }
}
