/** The POSIX path helpers the band table relies on: `str.split`, `os.path.basename`,
    `os.path.join`, and the parts of `pathlib.PurePosixPath` that turn a path into a
    string, a final component and a suffix. */
module Paths {

  import opened Wrappers
  import opened Strings

  // ---------------------------------------------------------------------------
  // Splitting and joining on one separator character

  /** `s.split(c)`: the pieces between the occurrences of c, always at least one. */
  function Split(s: string, c: char): (pieces: seq<string>)
    ensures |pieces| >= 1
    ensures forall i :: 0 <= i < |pieces| ==> c !in pieces[i]
    decreases |s|
  {
    match FindChar(s, c)
    case None => [s]
    case Some(i) => [s[..i]] + Split(s[i + 1..], c)
  }

  /** `c.join(pieces)`. */
  function JoinWith(c: char, pieces: seq<string>): string
  {
    if |pieces| == 0 then ""
    else if |pieces| == 1 then pieces[0]
    else pieces[0] + [c] + JoinWith(c, pieces[1..])
  }

  /** Joining the pieces of a split gives back the string. */
  lemma {:induction false} JoinSplit(s: string, c: char)
    ensures JoinWith(c, Split(s, c)) == s
    decreases |s|
  {
    match FindChar(s, c)
    case None =>
    case Some(i) =>
      var rest := Split(s[i + 1..], c);
      assert Split(s, c) == [s[..i]] + rest;
      JoinSplit(s[i + 1..], c);
      assert JoinWith(c, [s[..i]] + rest) == s[..i] + [c] + JoinWith(c, rest) by {
        assert ([s[..i]] + rest)[1..] == rest;
      }
      assert s == s[..i] + [c] + s[i + 1..];
  }

  /** Splitting a join of pieces that do not contain the separator gives back the pieces. */
  lemma {:induction false} SplitJoin(pieces: seq<string>, c: char)
    requires |pieces| >= 1
    requires forall i :: 0 <= i < |pieces| ==> c !in pieces[i]
    ensures Split(JoinWith(c, pieces), c) == pieces
    decreases |pieces|
  {
    if |pieces| == 1 {
      assert FindChar(pieces[0], c).None?;
    } else {
      var s := JoinWith(c, pieces);
      var p0 := pieces[0];
      assert s == p0 + [c] + JoinWith(c, pieces[1..]);
      assert s[..|p0|] == p0;
      FindCharAt(s, c, |p0|);
      assert s[|p0| + 1..] == JoinWith(c, pieces[1..]);
      SplitJoin(pieces[1..], c);
    }
  }

  // ---------------------------------------------------------------------------
  // os.path (posixpath)

  /** `os.path.basename(p)`: what follows the last slash. */
  function Basename(p: string): (b: string)
    ensures '/' !in b
    ensures |b| <= |p| && b == p[|p| - |b|..]
  {
    var i := RFindChar(p, '/');
    p[i + 1..]
  }

  /** `os.path.join(a, b)` for two arguments: an absolute b replaces a, otherwise one slash
      separates them unless a is empty or already ends with one. */
  function Join(a: string, b: string): string
  {
    if |b| > 0 && b[0] == '/' then b
    else if a == [] || a[|a| - 1] == '/' then a + b
    else a + "/" + b
  }

  /** The final component of a joined file name is the file name. */
  lemma JoinBasename(a: string, b: string)
    requires b != [] && '/' !in b
    ensures Basename(Join(a, b)) == b
  {
    var x := if a == [] || a[|a| - 1] == '/' then a else a + "/";
    var s := Join(a, b);
    assert s == x + b;
    if x == [] {
      assert s == b;
    } else {
      assert s[|x| - 1] == '/' && s[|x|..] == b;
      RFindCharAt(s, '/', |x| - 1);
    }
  }

  /** The joined path extends a whenever b is relative. */
  lemma JoinRelativeExtends(a: string, b: string)
    requires b == [] || b[0] != '/'
    ensures |a| <= |Join(a, b)| && Join(a, b)[..|a|] == a
    ensures Join(a, b)[|Join(a, b)| - |b|..] == b
  {
  }

  // ---------------------------------------------------------------------------
  // pathlib.PurePosixPath

  /** A parsed POSIX path: its root ("", "/" or "//") and its non-trivial components. */
  datatype PurePath = PurePath(root: string, parts: seq<string>)

  /** A component pathlib keeps: not empty and not ".". */
  predicate Kept(x: string)
  {
    x != "" && x != "."
  }

  /** The pieces that pathlib keeps, in order. */
  function Components(pieces: seq<string>): (kept: seq<string>)
    ensures |kept| <= |pieces|
    ensures forall i :: 0 <= i < |kept| ==> Kept(kept[i])
    ensures forall x :: x in kept <==> x in pieces && Kept(x)
  {
    if pieces == [] then []
    else if Kept(pieces[0]) then [pieces[0]] + Components(pieces[1..])
    else Components(pieces[1..])
  }

  /** The root pathlib sees: exactly two leading slashes are kept as "//", one or more
      than two collapse to "/". */
  function Root(p: string): (root: string)
    ensures root == "" || root == "/" || root == "//"
    ensures |root| <= |p| && p[..|root|] == root
  {
    if |p| >= 2 && p[0] == '/' && p[1] == '/' && (|p| == 2 || p[2] != '/') then "//"
    else if |p| >= 1 && p[0] == '/' then "/"
    else ""
  }

  function Parse(p: string): (pp: PurePath)
    ensures forall i :: 0 <= i < |pp.parts| ==> Kept(pp.parts[i]) && '/' !in pp.parts[i]
  {
    var pieces := Split(p, '/');
    var kept := Components(pieces);
    assert forall i :: 0 <= i < |kept| ==> kept[i] in pieces;
    PurePath(Root(p), kept)
  }

  /** `str(Path(p))`: the root followed by the kept components, or "." when both are empty. */
  function PathStr(p: string): string
  {
    var pp := Parse(p);
    var s := pp.root + JoinWith('/', pp.parts);
    if s == "" then "." else s
  }

  /** `Path(p).name`: the last kept component, or "" when there is none. */
  function Name(p: string): (name: string)
    ensures '/' !in name
    ensures name != "" <==> Parse(p).parts != []
    ensures Parse(p).parts != [] ==> name == Parse(p).parts[|Parse(p).parts| - 1]
  {
    var parts := Parse(p).parts;
    if parts == [] then "" else parts[|parts| - 1]
  }

  /** `Path(p).suffix`: from the last dot of the name, when that dot is neither the first
      nor the last character of the name; otherwise "". */
  function Suffix(p: string): (suffix: string)
    ensures suffix != "" ==>
              && 2 <= |suffix| < |Name(p)|
              && suffix == Name(p)[|Name(p)| - |suffix|..]
              && suffix[0] == '.' && '.' !in suffix[1..]
    ensures suffix == "" <==> RFindChar(Name(p), '.') <= 0 || RFindChar(Name(p), '.') == |Name(p)| - 1
  {
    var name := Name(p);
    var i := RFindChar(name, '.');
    if 0 < i < |name| - 1 then name[i..] else ""
  }

  /** A single-component name with a non-empty stem before ".gz" has the suffix ".gz", as
      an archive such as LC08_..._T1.tar.gz does. */
  lemma GzSuffix(stem: string)
    requires stem != "" && '/' !in stem
    ensures Suffix(stem + ".gz") == ".gz"
  {
    var p := stem + ".gz";
    assert FindChar(p, '/').None?;
    assert Split(p, '/') == [p];
    assert Components([p]) == [p];
    assert Name(p) == p;
    assert p[|p| - 3] == '.' && p[|p| - 2..] == "gz";
    RFindCharAt(p, '.', |p| - 3);
  }

  /** A relative path of one ordinary component is its own string, name and final part. */
  lemma SingleComponent(p: string)
    requires Kept(p) && '/' !in p
    ensures Parse(p) == PurePath("", [p])
    ensures PathStr(p) == p && Name(p) == p
  {
    assert FindChar(p, '/').None?;
    assert Split(p, '/') == [p];
    assert Components([p]) == [p];
  }

  // ---------------------------------------------------------------------------
  // GDAL archive references

  /** The `tar:{archive}!{member}` reference to a file inside a gzipped tarball. */
  function TarRef(archive: string, member: string): string
  {
    "tar:" + archive + "!" + member
  }

  /** The reference separates again at its last "!" when the member name has none. */
  lemma TarRefRoundTrip(archive: string, member: string)
    requires '!' !in member
    ensures var r := TarRef(archive, member);
            var bang := RFindChar(r, '!');
            && r[..4] == "tar:"
            && bang == 4 + |archive|
            && r[4..bang] == archive
            && r[bang + 1..] == member
  {
    var r := TarRef(archive, member);
    assert r[4 + |archive|] == '!' && r[5 + |archive|..] == member;
    RFindCharAt(r, '!', 4 + |archive|);
  }
}
