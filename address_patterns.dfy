// The regular-expression searches that split an address `//user@host/path`.
//
// `_parse_arg` (source/sftp.py) runs `re.search('//(.+)@(.+)', path)` and then
// `re.search('([^/]+)/(.*)', tail)`; `_get_real_path` (sftp/sftp_path.py) runs
// `re.search('//.+@(.*)', path)` and then `re.search('[^/]*/(.*)', group)`.
// Both pairs have the same shape and differ only in how many characters the
// tail after `@` and the run before `/` must have, so each search is written
// once with that minimum as a parameter.
//
// Each search is given twice: as a ghost predicate that says which spans the
// pattern matches and which of them Python's `re.search` reports (the leftmost
// start, then the longest first group, then the longest second group), and as
// an executable scan. The lemmas prove that the scan reports exactly that span.
// Python's `.` matches every character except a line feed.
module AddressPatterns {
  import opened Common

  // ---------------------------------------------------------------------------
  // `//(.+)@(.{minTail,})`
  // ---------------------------------------------------------------------------

  /** `//(.+)@` followed by at least `minTail` characters matches `s` from `i`,
      with the `@` at `j` and the match ending at `k` (exclusive). */
  ghost predicate AddressMatch(s: string, minTail: nat, i: int, j: int, k: int)
  {
    && 0 <= i && i + 2 < j && j + 1 + minTail <= k <= |s|
    && s[i] == '/' && s[i + 1] == '/' && s[j] == '@'
    && (forall t :: i + 2 <= t < j ==> s[t] != '\n')
    && (forall t :: j < t < k ==> s[t] != '\n')
  }

  /** The match `re.search` reports: leftmost start, then the greedy user
      group (latest `@`), then the greedy tail group (longest end). */
  ghost predicate SelectedAddressMatch(s: string, minTail: nat, i: int, j: int, k: int)
  {
    && AddressMatch(s, minTail, i, j, k)
    && (forall i', j', k' :: AddressMatch(s, minTail, i', j', k') ==> i <= i')
    && (forall j', k' :: AddressMatch(s, minTail, i, j', k') ==> j' <= j)
    && (forall k' :: AddressMatch(s, minTail, i, j, k') ==> k' <= k)
  }

  /** The greatest index in `[lo, hi)` that holds `@`. */
  function LastAt(s: string, lo: nat, hi: nat): (r: Option<nat>)
    requires lo <= hi <= |s|
    ensures r.Some? ==> lo <= r.value < hi && s[r.value] == '@'
    ensures r.Some? ==> forall t :: r.value < t < hi ==> s[t] != '@'
    ensures r.None? ==> forall t :: lo <= t < hi ==> s[t] != '@'
    decreases hi - lo
  {
    if lo == hi then None
    else if s[hi - 1] == '@' then Some(hi - 1)
    else LastAt(s, lo, hi - 1)
  }

  /** The `@` and the end of the match that starts at `i`, if one does. */
  function AddressAt(s: string, minTail: nat, i: nat): (r: Option<(nat, nat)>)
    requires i <= |s|
    ensures r.Some? ==> i + 2 < r.value.0 && r.value.0 + 1 + minTail <= r.value.1 <= |s|
  {
    if i + 2 <= |s| && s[i] == '/' && s[i + 1] == '/' then
      var e := IndexFrom(s, '\n', i + 2);
      if i + 3 + minTail <= e then
        match LastAt(s, i + 3, e - minTail)
        case Some(j) => Some((j, e))
        case None => None
      else None
    else None
  }

  /** The scan over start positions `i, i + 1, ..., |s|`. */
  function AddressFrom(s: string, minTail: nat, i: nat): (r: Option<(nat, nat, nat)>)
    requires i <= |s|
    ensures r.Some? ==> i <= r.value.0 && r.value.0 + 2 < r.value.1 && r.value.1 + 1 + minTail <= r.value.2 <= |s|
    decreases |s| - i
  {
    match AddressAt(s, minTail, i)
    case Some((j, k)) => Some((i, j, k))
    case None => if i == |s| then None else AddressFrom(s, minTail, i + 1)
  }

  function FindAddress(s: string, minTail: nat): (r: Option<(nat, nat, nat)>)
    ensures r.Some? ==> r.value.0 + 2 < r.value.1 && r.value.1 + 1 + minTail <= r.value.2 <= |s|
  {
    AddressFrom(s, minTail, 0)
  }

  /** At one start position the scan finds a match exactly when there is one,
      and it finds the latest `@` and the longest tail. */
  lemma AddressAtSelects(s: string, minTail: nat, i: nat)
    requires i <= |s|
    ensures AddressAt(s, minTail, i).None? <==> forall j, k :: !AddressMatch(s, minTail, i, j, k)
    ensures AddressAt(s, minTail, i).Some? ==>
              var (j, k) := AddressAt(s, minTail, i).value;
              && AddressMatch(s, minTail, i, j, k)
              && (forall j', k' :: AddressMatch(s, minTail, i, j', k') ==> j' <= j)
              && (forall k' :: AddressMatch(s, minTail, i, j, k') ==> k' <= k)
  {
    if i + 2 <= |s| && s[i] == '/' && s[i + 1] == '/' {
      var e := IndexFrom(s, '\n', i + 2);
      // Every match that starts at i stays inside the line, so it ends by e.
      forall j', k' | AddressMatch(s, minTail, i, j', k')
        ensures k' <= e && i + 3 <= j' < e - minTail
      {
        assert forall t :: i + 2 <= t < k' ==> s[t] != '\n';
      }
      if i + 3 + minTail <= e {
        match LastAt(s, i + 3, e - minTail) {
          case Some(j) =>
            assert AddressMatch(s, minTail, i, j, e);
          case None =>
        }
      }
    }
  }

  lemma {:induction false} AddressFromSelects(s: string, minTail: nat, i: nat)
    requires i <= |s|
    requires forall i', j', k' :: AddressMatch(s, minTail, i', j', k') ==> i <= i'
    ensures AddressFrom(s, minTail, i).None? <==> forall i', j', k' :: !AddressMatch(s, minTail, i', j', k')
    ensures AddressFrom(s, minTail, i).Some? ==>
              var (i', j', k') := AddressFrom(s, minTail, i).value;
              SelectedAddressMatch(s, minTail, i', j', k')
    decreases |s| - i
  {
    AddressAtSelects(s, minTail, i);
    if AddressAt(s, minTail, i).None? && i < |s| {
      AddressFromSelects(s, minTail, i + 1);
    }
  }

  /** `FindAddress` reports a span exactly when the pattern matches somewhere,
      and then it reports the span `re.search` selects. */
  lemma FindAddressSelects(s: string, minTail: nat)
    ensures FindAddress(s, minTail).None? <==> forall i, j, k :: !AddressMatch(s, minTail, i, j, k)
    ensures FindAddress(s, minTail).Some? ==>
              var (i, j, k) := FindAddress(s, minTail).value;
              SelectedAddressMatch(s, minTail, i, j, k)
  {
    AddressFromSelects(s, minTail, 0);
  }

  /** The span `FindAddress` reports is a match. */
  lemma FindAddressMatches(s: string, minTail: nat)
    ensures FindAddress(s, minTail).Some? ==>
              var (i, j, k) := FindAddress(s, minTail).value;
              AddressMatch(s, minTail, i, j, k)
  {
    FindAddressSelects(s, minTail);
  }

  /** The span `re.search` selects is unique. */
  lemma SelectedAddressMatchUnique(s: string, minTail: nat, i: int, j: int, k: int, i': int, j': int, k': int)
    requires SelectedAddressMatch(s, minTail, i, j, k)
    requires SelectedAddressMatch(s, minTail, i', j', k')
    ensures i == i' && j == j' && k == k'
  {
  }

  // ---------------------------------------------------------------------------
  // `([^/]{minHost,})/(.*)`
  // ---------------------------------------------------------------------------

  /** `[^/]` repeated at least `minHost` times and then `/` matches `t` from
      `p`, with the `/` at `q`. */
  ghost predicate SlashMatch(t: string, minHost: nat, p: int, q: int)
  {
    && 0 <= p && p + minHost <= q < |t| && t[q] == '/'
    && forall x :: p <= x < q ==> t[x] != '/'
  }

  /** The match `re.search` reports: the leftmost start (its `/` is then fixed). */
  ghost predicate SelectedSlashMatch(t: string, minHost: nat, p: int, q: int)
  {
    && SlashMatch(t, minHost, p, q)
    && forall p', q' :: SlashMatch(t, minHost, p', q') ==> p <= p'
  }

  function SlashFrom(t: string, minHost: nat, p: nat): (r: Option<(nat, nat)>)
    requires p <= |t|
    ensures r.Some? ==> p <= r.value.0 && r.value.0 + minHost <= r.value.1 < |t| && t[r.value.1] == '/'
    decreases |t| - p
  {
    var q := IndexFrom(t, '/', p);
    if q < |t| && p + minHost <= q then Some((p, q))
    else if p == |t| then None
    else SlashFrom(t, minHost, p + 1)
  }

  function FindSlash(t: string, minHost: nat): (r: Option<(nat, nat)>)
    ensures r.Some? ==> r.value.0 + minHost <= r.value.1 < |t| && t[r.value.1] == '/'
  {
    SlashFrom(t, minHost, 0)
  }

  lemma {:induction false} SlashFromSelects(t: string, minHost: nat, p: nat)
    requires p <= |t|
    requires forall p', q' :: SlashMatch(t, minHost, p', q') ==> p <= p'
    ensures SlashFrom(t, minHost, p).None? <==> forall p', q' :: !SlashMatch(t, minHost, p', q')
    ensures SlashFrom(t, minHost, p).Some? ==>
              var (p', q') := SlashFrom(t, minHost, p).value;
              SelectedSlashMatch(t, minHost, p', q')
    decreases |t| - p
  {
    var q := IndexFrom(t, '/', p);
    // The only `/` a match from p can use is the first one at or after p.
    forall q' | SlashMatch(t, minHost, p, q') ensures q' == q {
    }
    if q < |t| && p + minHost <= q {
      assert SlashMatch(t, minHost, p, q);
    } else if p < |t| {
      SlashFromSelects(t, minHost, p + 1);
    }
  }

  /** `FindSlash` reports a match exactly when there is one, and then the
      leftmost one. */
  lemma FindSlashSelects(t: string, minHost: nat)
    ensures FindSlash(t, minHost).None? <==> forall p, q :: !SlashMatch(t, minHost, p, q)
    ensures FindSlash(t, minHost).Some? ==>
              var (p, q) := FindSlash(t, minHost).value;
              SelectedSlashMatch(t, minHost, p, q)
  {
    SlashFromSelects(t, minHost, 0);
  }

  /** What `(.*)` captures after the `/` at `q`: the rest of that line. */
  function RestOfLine(t: string, q: nat): (r: string)
    requires q < |t|
    ensures '\n' !in r
    ensures IndexFrom(t, '\n', q + 1) == |t| ==> r == t[q + 1..]
  {
    t[q + 1..IndexFrom(t, '\n', q + 1)]
  }

  // ---------------------------------------------------------------------------
  // The two parsers built from the searches
  // ---------------------------------------------------------------------------

  datatype Address = Address(username: string, hostname: string, file: string)

  /** What `_parse_arg` extracts from its argument: nothing when
      `//(.+)@(.+)` does not occur, otherwise the user, the host and the file
      part (`.` when the text after `@` holds no `/` after a non-`/`). */
  function ParseAddress(s: string): (r: Option<Address>)
    ensures r.Some? ==> r.value.username != "" && r.value.hostname != ""
  {
    match FindAddress(s, 1)
    case None => None
    case Some((i, j, k)) => Some(SplitHost(s[i + 2..j], s[j + 1..k]))
  }

  /** The second search of `_parse_arg`, applied to the text after `@`. */
  function SplitHost(user: string, tail: string): (r: Address)
    requires user != "" && tail != ""
    ensures r.username == user && r.hostname != ""
  {
    match FindSlash(tail, 1)
    case Some((p, q)) => Address(user, tail[p..q], RestOfLine(tail, q))
    case None => Address(user, tail, ".")
  }

  /** The host and file `_parse_arg` takes from the text after `@`. */
  ghost predicate HostFileSplit(tail: string, host: string, file: string)
  {
    || (exists p, q :: SelectedSlashMatch(tail, 1, p, q) && host == tail[p..q] && file == RestOfLine(tail, q))
    || ((forall p, q :: !SlashMatch(tail, 1, p, q)) && host == tail && file == ".")
  }

  /** The meaning of `ParseAddress` in terms of what the two searches select. */
  lemma ParseAddressMeaning(s: string)
    ensures ParseAddress(s).None? <==> forall i, j, k :: !AddressMatch(s, 1, i, j, k)
    ensures ParseAddress(s).Some? ==>
              exists i, j, k :: && SelectedAddressMatch(s, 1, i, j, k)
                                && ParseAddress(s).value.username == s[i + 2..j]
                                && HostFileSplit(s[j + 1..k], ParseAddress(s).value.hostname, ParseAddress(s).value.file)
  {
    FindAddressSelects(s, 1);
    match FindAddress(s, 1) {
      case None =>
      case Some((i, j, k)) =>
        var tail := s[j + 1..k];
        FindSlashSelects(tail, 1);
        match FindSlash(tail, 1) {
          case Some((p, q)) =>
            assert SelectedSlashMatch(tail, 1, p, q);
          case None =>
        }
    }
  }

  /** `.` does not match a line feed, so neither the user nor the host
      `_parse_arg` extracts holds one. */
  lemma ParseAddressNoLineFeed(s: string)
    ensures ParseAddress(s).Some? ==>
              '\n' !in ParseAddress(s).value.username && '\n' !in ParseAddress(s).value.hostname
  {
    FindAddressMatches(s, 1);
    match FindAddress(s, 1) {
      case None =>
      case Some((i, j, k)) =>
        NoLineFeedInSlice(s, i + 2, j);
        NoLineFeedInSlice(s, j + 1, k);
        var tail := s[j + 1..k];
        match FindSlash(tail, 1) {
          case Some((p, q)) =>
            NoLineFeedInSlice(tail, p, q);
          case None =>
        }
    }
  }

  /** A slice of positions that hold no line feed holds none. */
  lemma NoLineFeedInSlice(s: string, lo: nat, hi: nat)
    requires lo <= hi <= |s|
    requires forall t :: lo <= t < hi ==> s[t] != '\n'
    ensures '\n' !in s[lo..hi]
  {
    assert forall t :: 0 <= t < hi - lo ==> s[lo..hi][t] == s[lo + t];
  }

  /** `re.search` reports the selected `/`. */
  lemma FindSlashOfSelected(t: string, minHost: nat, p: int, q: int)
    requires SelectedSlashMatch(t, minHost, p, q)
    ensures FindSlash(t, minHost) == Some((p, q))
  {
    FindSlashSelects(t, minHost);
  }

  /** An argument that starts with `//user@` and has no other `@` after it
      and no line feed is matched from its start, up to its end. */
  lemma ParseAddressAtFront(user: string, tail: string)
    requires user != "" && '\n' !in user
    requires tail != "" && '@' !in tail && '\n' !in tail
    ensures ParseAddress("//" + user + "@" + tail) == Some(SplitHost(user, tail))
  {
    var s := "//" + user + "@" + tail;
    var j := 2 + |user|;
    FrontAddressSelected(user, tail);
    FindAddressOfSelected(s, 1, 0, j, |s|);
    assert s[2..j] == user;
    assert s[j + 1..|s|] == tail;
  }

  /** In `//user@tail` with no `@` or line feed in the tail, the selected
      span is the whole text, its `@` the one after the user. */
  lemma FrontAddressSelected(user: string, tail: string)
    requires user != "" && '\n' !in user
    requires tail != "" && '@' !in tail && '\n' !in tail
    ensures SelectedAddressMatch("//" + user + "@" + tail, 1, 0, 2 + |user|, |"//" + user + "@" + tail|)
  {
    var s := "//" + user + "@" + tail;
    var j := 2 + |user|;
    assert forall t :: 2 <= t < j ==> s[t] == user[t - 2];
    assert forall t :: j < t < |s| ==> s[t] == tail[t - j - 1];
    assert AddressMatch(s, 1, 0, j, |s|);
    assert forall t :: j < t < |s| ==> s[t] != '@';
  }

  /** An address written as `//user@host/file` parses back into its three
      parts, when the user holds no line feed and the host and the file hold
      no `@` (the user is greedy) and no line feed, and the host no `/`. */
  lemma ParseFormattedAddress(user: string, host: string, file: string)
    requires user != "" && '\n' !in user
    requires host != "" && '/' !in host && '@' !in host && '\n' !in host
    requires '@' !in file && '\n' !in file
    ensures ParseAddress("//" + user + "@" + host + "/" + file) == Some(Address(user, host, file))
  {
    var tail := host + "/" + file;
    assert "//" + user + "@" + host + "/" + file == "//" + user + "@" + tail;
    ParseAddressAtFront(user, tail);
    assert forall x :: 0 <= x < |host| ==> tail[x] == host[x];
    assert SlashMatch(tail, 1, 0, |host|);
    FindSlashOfSelected(tail, 1, 0, |host|);
    IndexFromUnique(tail, '\n', |host| + 1, |tail|);
    assert tail[0..|host|] == host;
    assert tail[|host| + 1..] == file;
  }

  /** An address written as `//user@host` with no `/` after the host parses
      into the user and the host, with `.` as the file part. */
  lemma ParseHostOnlyAddress(user: string, host: string)
    requires user != "" && '\n' !in user
    requires host != "" && '/' !in host && '@' !in host && '\n' !in host
    ensures ParseAddress("//" + user + "@" + host) == Some(Address(user, host, "."))
  {
    ParseAddressAtFront(user, host);
    FindSlashSelects(host, 1);
  }

  /** What `_get_real_path` returns: its argument unchanged when `//.+@(.*)`
      does not occur, otherwise what follows the first `/` after the `@`, or
      `.` when no `/` follows it. */
  function GetRealPath(s: string): (r: string)
  {
    match FindAddress(s, 0)
    case None => s
    case Some((i, j, k)) => AfterFirstSlash(s[j + 1..k])
  }

  /** The second search of `_get_real_path`, applied to the text after `@`. */
  function AfterFirstSlash(tail: string): (r: string)
  {
    match FindSlash(tail, 0)
    case Some((p, q)) => RestOfLine(tail, q)
    case None => "."
  }

  /** With no line feed to stop it, the `[^/]` run and its `/` match from the very start
      exactly when there is a `/`, and its `/` is the first one. */
  lemma FindSlashAnyRun(t: string)
    ensures FindSlash(t, 0).None? <==> '/' !in t
    ensures FindSlash(t, 0).Some? ==> FindSlash(t, 0).value == (0, IndexFrom(t, '/', 0))
  {
    FindSlashSelects(t, 0);
    if '/' in t {
      var q :| 0 <= q < |t| && t[q] == '/';
      assert SlashMatch(t, 0, q, q);
    }
  }

  lemma AfterFirstSlashMeaning(tail: string)
    requires '\n' !in tail
    ensures var r := IndexFrom(tail, '/', 0);
            AfterFirstSlash(tail) == if r < |tail| then tail[r + 1..] else "."
  {
    FindSlashAnyRun(tail);
    var r := IndexFrom(tail, '/', 0);
    if r < |tail| {
      IndexFromUnique(tail, '\n', r + 1, |tail|);
    }
  }

  /** `re.search` reports the selected span. */
  lemma FindAddressOfSelected(s: string, minTail: nat, i: int, j: int, k: int)
    requires SelectedAddressMatch(s, minTail, i, j, k)
    ensures FindAddress(s, minTail) == Some((i, j, k))
  {
    FindAddressSelects(s, minTail);
    var (i', j', k') := FindAddress(s, minTail).value;
    SelectedAddressMatchUnique(s, minTail, i, j, k, i', j', k');
  }

  /** The value of `_get_real_path` once the span of the first search is known. */
  lemma GetRealPathOfSelected(s: string, i: nat, j: nat, k: nat)
    requires SelectedAddressMatch(s, 0, i, j, k)
    ensures var q := IndexFrom(s, '/', j + 1);
            GetRealPath(s) == if q < k then s[q + 1..k] else "."
  {
    FindAddressOfSelected(s, 0, i, j, k);
    assert j + 1 <= k <= |s|;
    GetRealPathOfFound(s, i, j, k);
    AfterFirstSlashOfSlice(s, j, k);
  }

  /** Once the first search has found its span, `_get_real_path` is the
      second search on the text after the `@`. */
  lemma GetRealPathOfFound(s: string, i: nat, j: nat, k: nat)
    requires FindAddress(s, 0) == Some((i, j, k)) && j + 1 <= k <= |s|
    ensures GetRealPath(s) == AfterFirstSlash(s[j + 1..k])
  {
  }

  /** The second search of `_get_real_path` on the one-line text `s[j + 1..k]`,
      in terms of `s`. */
  lemma AfterFirstSlashOfSlice(s: string, j: nat, k: nat)
    requires j + 1 <= k <= |s|
    requires forall t :: j < t < k ==> s[t] != '\n'
    ensures var q := IndexFrom(s, '/', j + 1);
            AfterFirstSlash(s[j + 1..k]) == if q < k then s[q + 1..k] else "."
  {
    var tail := s[j + 1..k];
    assert forall t :: 0 <= t < |tail| ==> tail[t] == s[j + 1 + t];
    AfterFirstSlashMeaning(tail);
    IndexFromSlice(s, '/', j + 1, k);
    var q := IndexFrom(s, '/', j + 1);
    if q < k {
      assert tail[q - j..] == s[q + 1..k];
    }
  }

  /** Without a match of the first pattern `_get_real_path` returns its input. */
  lemma GetRealPathOfNoMatch(s: string)
    ensures (forall i, j, k :: !AddressMatch(s, 0, i, j, k)) ==> GetRealPath(s) == s
  {
    FindAddressSelects(s, 0);
  }

  lemma GetRealPathMeaning(s: string)
    ensures (forall i, j, k :: !AddressMatch(s, 0, i, j, k)) ==> GetRealPath(s) == s
    ensures forall i: nat, j: nat, k: nat | SelectedAddressMatch(s, 0, i, j, k) ::
              var q := IndexFrom(s, '/', j + 1);
              GetRealPath(s) == if q < k then s[q + 1..k] else "."
  {
    GetRealPathOfNoMatch(s);
    forall i: nat, j: nat, k: nat | SelectedAddressMatch(s, 0, i, j, k)
      ensures var q := IndexFrom(s, '/', j + 1);
              GetRealPath(s) == if q < k then s[q + 1..k] else "."
    {
      GetRealPathOfSelected(s, i, j, k);
    }
  }
}
