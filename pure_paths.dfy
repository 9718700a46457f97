// Python's `pathlib.PurePosixPath`, as far as the file actions and the
// listing use it: parsing a string into a root and parts, printing it back,
// joining, and taking the name or the parent. The file actions of
// kind/sftp.py build every path they touch with `Path(...)` and
// `joinpath`, and the listing in source/sftp.py reads each entry's `.name`.
module PurePaths {
  import opened Common

  /** A part pathlib keeps: not empty, not `.`, and without `/`. */
  predicate IsPart(x: string)
  {
    x != "" && x != "." && '/' !in x
  }

  /** The roots a POSIX path can have: none, `/`, or exactly two slashes
      (POSIX leaves `//` implementation-defined, so pathlib keeps it). */
  predicate IsRoot(r: string)
  {
    r == "" || r == "/" || r == "//"
  }

  datatype PathValue = PathValue(root: string, parts: seq<string>)

  predicate WellFormed(p: PathValue)
  {
    IsRoot(p.root) && forall i :: 0 <= i < |p.parts| ==> IsPart(p.parts[i])
  }

  /** A parsed path: what pathlib stores for a `PurePosixPath`. Two paths are
      equal exactly when their roots and parts are. */
  type Path = p: PathValue | WellFormed(p) witness PathValue("", [])

  /** `s.split('/')` */
  function Split(s: string): (r: seq<string>)
    ensures |r| >= 1
    ensures forall i :: 0 <= i < |r| ==> '/' !in r[i]
    decreases |s|
  {
    var q := IndexFrom(s, '/', 0);
    if q == |s| then [s] else [s[..q]] + Split(s[q + 1..])
  }

  /** The pieces pathlib keeps of a split: it drops empty ones and `.`. */
  function KeepParts(xs: seq<string>): (r: seq<string>)
    requires forall i :: 0 <= i < |xs| ==> '/' !in xs[i]
    ensures forall i :: 0 <= i < |r| ==> IsPart(r[i])
  {
    if xs == [] then []
    else (if xs[0] == "" || xs[0] == "." then [] else [xs[0]]) + KeepParts(xs[1..])
  }

  /** pathlib's root: exactly two leading slashes are kept as `//`, one or
      three and more become `/`. */
  function RootOf(s: string): (r: string)
    ensures IsRoot(r)
  {
    if |s| >= 2 && s[0] == '/' && s[1] == '/' && (|s| == 2 || s[2] != '/') then "//"
    else if |s| >= 1 && s[0] == '/' then "/"
    else ""
  }

  /** `PurePosixPath(s)` */
  function Parse(s: string): (r: Path)
  {
    PathValue(RootOf(s), KeepParts(Split(s)))
  }

  /** `'/'.join(parts)` */
  function JoinParts(parts: seq<string>): (r: string)
  {
    if parts == [] then ""
    else if |parts| == 1 then parts[0]
    else parts[0] + "/" + JoinParts(parts[1..])
  }

  /** `str(p)`: `.` for the empty relative path. */
  function Str(p: Path): (r: string)
  {
    if p.root == "" && p.parts == [] then "." else p.root + JoinParts(p.parts)
  }

  /** `p.joinpath(name)`: an absolute `name` replaces `p`, a relative one is
      appended part by part. */
  function Join(p: Path, name: string): (r: Path)
  {
    var q := Parse(name);
    if q.root != "" then q else PathValue(p.root, p.parts + q.parts)
  }

  /** `p.name`: the last part, or the empty string. */
  function Name(p: Path): (r: string)
  {
    if p.parts == [] then "" else p.parts[|p.parts| - 1]
  }

  /** `p.parent`: `p` without its last part; a path with no parts is its own parent. */
  function Parent(p: Path): (r: Path)
  {
    if p.parts == [] then p else PathValue(p.root, p.parts[..|p.parts| - 1])
  }

  // ---------------------------------------------------------------------------
  // Properties
  // ---------------------------------------------------------------------------

  lemma {:induction false} SplitJoinParts(parts: seq<string>)
    requires parts != []
    requires forall i :: 0 <= i < |parts| ==> IsPart(parts[i])
    ensures Split(JoinParts(parts)) == parts
  {
    if |parts| == 1 {
      IndexFromUnique(parts[0], '/', 0, |parts[0]|);
    } else {
      var head, s := parts[0], JoinParts(parts);
      var rest := JoinParts(parts[1..]);
      assert parts == [head] + parts[1..];
      assert s == head + "/" + rest;
      assert s[..|head|] == head;
      assert s[|head| + 1..] == rest;
      assert s[|head|] == '/';
      forall t | 0 <= t < |head|
        ensures s[t] != '/'
      {
        assert s[t] == head[t];
      }
      IndexFromUnique(s, '/', 0, |head|);
      SplitJoinParts(parts[1..]);
      assert Split(s) == [head] + Split(rest);
    }
  }

  lemma {:induction false} KeepPartsOfParts(parts: seq<string>)
    requires forall i :: 0 <= i < |parts| ==> '/' !in parts[i] && IsPart(parts[i])
    ensures KeepParts(parts) == parts
  {
    if parts != [] {
      KeepPartsOfParts(parts[1..]);
    }
  }

  lemma SplitAfterSlash(s: string)
    ensures Split("/" + s) == [""] + Split(s)
  {
    IndexFromUnique("/" + s, '/', 0, 0);
    assert ("/" + s)[1..] == s;
  }

  /** A root in front of a text adds only empty pieces, which pathlib drops. */
  lemma KeepPartsAfterRoot(root: string, body: string)
    requires IsRoot(root)
    ensures KeepParts(Split(root + body)) == KeepParts(Split(body))
  {
    if root == "/" {
      SplitAfterSlash(body);
    } else if root == "//" {
      assert root + body == "/" + ("/" + body);
      SplitAfterSlash("/" + body);
      SplitAfterSlash(body);
      assert KeepParts(Split(root + body)) == KeepParts(Split(root + body)[1..]);
    } else {
      assert root + body == body;
    }
  }

  /** A root in front of a text that does not start with a slash is the root pathlib finds. */
  lemma RootOfRooted(root: string, body: string)
    requires IsRoot(root) && (body == [] || body[0] != '/')
    requires root == "" ==> body != []
    ensures RootOf(root + body) == root
  {
    if root == "//" {
      assert (root + body)[1] == '/';
      assert |root + body| == 2 || (root + body)[2] == body[0];
    } else if root == "" {
      assert (root + body)[0] == body[0];
    }
  }

  /** Printing a path and parsing the text gives the path back: `str` loses
      nothing, so `Path(str(p)) == p`. */
  lemma ParseStr(p: Path)
    ensures Parse(Str(p)) == p
  {
    if p.parts == [] {
      if p.root == "" {
        IndexFromUnique(".", '/', 0, 1);
      } else {
        KeepPartsAfterRoot(p.root, "");
        IndexFromUnique("", '/', 0, 0);
        RootOfRooted(p.root, "");
        assert Str(p) == p.root + "";
      }
    } else {
      var body := JoinParts(p.parts);
      SplitJoinParts(p.parts);
      KeepPartsOfParts(p.parts);
      assert body[0] == p.parts[0][0] && p.parts[0][0] in p.parts[0];
      KeepPartsAfterRoot(p.root, body);
      RootOfRooted(p.root, body);
    }
  }

  /** Parsing is idempotent: the printed form of a parsed path parses to the
      same path. */
  lemma ParseIdempotent(s: string)
    ensures Parse(Str(Parse(s))) == Parse(s)
  {
    ParseStr(Parse(s));
  }

  /** A single part parses to itself, relative. */
  lemma ParsePart(x: string)
    requires IsPart(x)
    ensures Parse(x) == PathValue("", [x])
  {
    IndexFromUnique(x, '/', 0, |x|);
    assert Split(x) == [x];
    assert KeepParts([x]) == [x];
  }

  /** Joining one part appends it: the result's name is that part and its
      parent is the path joined to. */
  lemma JoinPart(p: Path, x: string)
    requires IsPart(x)
    ensures Join(p, x) == PathValue(p.root, p.parts + [x])
    ensures Name(Join(p, x)) == x && Parent(Join(p, x)) == p
  {
    ParsePart(x);
    assert (p.parts + [x])[..|p.parts|] == p.parts;
  }

  lemma {:induction false} SplitAppend(a: string, x: string)
    requires '/' !in x
    ensures Split(a + "/" + x) == Split(a) + [x]
    decreases |a|
  {
    var s := a + "/" + x;
    var q := IndexFrom(a, '/', 0);
    IndexFromUnique(x, '/', 0, |x|);
    if q == |a| {
      IndexFromUnique(s, '/', 0, |a|);
      assert s[..|a|] == a && s[|a| + 1..] == x;
    } else {
      IndexFromUnique(s, '/', 0, q);
      assert s[..q] == a[..q];
      assert s[q + 1..] == a[q + 1..] + "/" + x;
      SplitAppend(a[q + 1..], x);
    }
  }

  lemma {:induction false} KeepPartsAppend(xs: seq<string>, x: string)
    requires forall i :: 0 <= i < |xs| ==> '/' !in xs[i]
    requires IsPart(x)
    ensures KeepParts(xs + [x]) == KeepParts(xs) + [x]
  {
    if xs == [] {
      assert [x][1..] == [];
    } else {
      assert (xs + [x])[1..] == xs[1..] + [x];
      KeepPartsAppend(xs[1..], x);
    }
  }

  /** A child written as `parent + '/' + name` is named `name` by pathlib,
      whatever the parent text is. */
  lemma NameOfChild(parent: string, x: string)
    requires IsPart(x)
    ensures Name(Parse(parent + "/" + x)) == x
  {
    SplitAppend(parent, x);
    KeepPartsAppend(Split(parent), x);
  }
  /** Text appended to `'/'.join(parts)` lands on the last part. */
  lemma {:induction false} JoinPartsSuffix(parts: seq<string>, s: string)
    requires parts != []
    ensures JoinParts(parts) + s == JoinParts(parts[..|parts| - 1] + [parts[|parts| - 1] + s])
    decreases |parts|
  {
    var n := |parts|;
    var ps := parts[..n - 1] + [parts[n - 1] + s];
    if n == 1 {
      assert ps == [parts[0] + s];
    } else {
      JoinPartsSuffix(parts[1..], s);
      assert ps[1..] == parts[1..][..n - 2] + [parts[n - 1] + s];
      assert ps[0] == parts[0];
      assert JoinParts(parts) + s == parts[0] + "/" + (JoinParts(parts[1..]) + s);
    }
  }

  /** `Path(str(p) + s)`, for a path with parts and text without a slash, is
      the sibling of `p` whose name is `p.name + s`. */
  lemma AppendToName(p: Path, s: string)
    requires p.parts != [] && '/' !in s
    ensures Parse(Str(p) + s) == PathValue(p.root, Parent(p).parts + [Name(p) + s])
    ensures Parent(Parse(Str(p) + s)) == Parent(p) && Name(Parse(Str(p) + s)) == Name(p) + s
  {
    var n := |p.parts|;
    var last := Name(p) + s;
    assert last[..|Name(p)|] == Name(p);
    var q: Path := PathValue(p.root, Parent(p).parts + [last]);
    JoinPartsSuffix(p.parts, s);
    assert Str(q) == Str(p) + s;
    ParseStr(q);
    assert q.parts[..n - 1] == Parent(p).parts;
  }
}
