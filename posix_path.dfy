/**
 * The three `os.path` functions that name the page images, with the POSIX
 * semantics of Python's `posixpath`: `basename`, `splitext` and a
 * two-component `join`. The separator is '/', the extension separator '.'.
 */
module PosixPath {

  const Sep: char := '/'
  const ExtSep: char := '.'

  /** `s.rfind(c)` for one character: the last index holding c, or -1. */
  function RFind(s: string, c: char): (r: int)
    ensures -1 <= r < |s|
    ensures r >= 0 ==> s[r] == c
    ensures forall i :: r < i < |s| ==> s[i] != c
  {
    if |s| == 0 then -1
    else if s[|s| - 1] == c then |s| - 1
    else RFind(s[..|s| - 1], c)
  }

  /** The two facts RFind promises determine its result. */
  lemma RFindUnique(s: string, c: char, r: int)
    requires -1 <= r < |s|
    requires r >= 0 ==> s[r] == c
    requires forall i :: r < i < |s| ==> s[i] != c
    ensures RFind(s, c) == r
  {
  }

  /** `os.path.basename(p)`: what follows the last '/'. */
  function Basename(p: string): string
  {
    p[RFind(p, Sep) + 1..]
  }

  /** The basename is the final component: a suffix of p free of '/', preceded by '/' unless it is all of p. */
  lemma BasenameIsFinalComponent(p: string)
    ensures Sep !in Basename(p)
    ensures |Basename(p)| <= |p| && Basename(p) == p[|p| - |Basename(p)|..]
    ensures |Basename(p)| < |p| ==> p[|p| - |Basename(p)| - 1] == Sep
  {
  }

  /** Some character of p[lo..hi] is not a dot. */
  predicate HasNonDot(p: string, lo: int, hi: int)
    requires 0 <= lo && hi <= |p|
  {
    exists i :: lo <= i < hi && p[i] != ExtSep
  }

  /**
   * `os.path.splitext(p)`: the root and the final extension. The extension
   * starts at the last '.' after the last '/', provided some character before
   * that dot in the final component is not a dot (so ".bashrc" and "..x" have
   * no extension); otherwise it is empty.
   */
  function SplitExt(p: string): (string, string)
  {
    var sepIndex := RFind(p, Sep);
    var dotIndex := RFind(p, ExtSep);
    if dotIndex > sepIndex && HasNonDot(p, sepIndex + 1, dotIndex) then (p[..dotIndex], p[dotIndex..])
    else (p, "")
  }

  /**
   * splitext only cuts p in two: the extension is empty or is one dot followed
   * by neither '.' nor '/', and a non-empty extension follows a final component
   * that holds some character other than '.'.
   */
  lemma SplitExtParts(p: string)
    ensures SplitExt(p).0 + SplitExt(p).1 == p
    ensures var ext := SplitExt(p).1;
      ext == [] || (ext[0] == ExtSep && ExtSep !in ext[1..] && Sep !in ext)
    ensures SplitExt(p).1 != [] ==> HasNonDot(SplitExt(p).0, RFind(p, Sep) + 1, |SplitExt(p).0|)
  {
    var dotIndex := RFind(p, ExtSep);
    if SplitExt(p).1 != [] {
      assert forall i :: 0 <= i < |p| - dotIndex - 1 ==> p[dotIndex..][1..][i] == p[dotIndex + 1 + i];
    }
  }

  /** `os.path.join(a, b)` for two components. */
  function Join(a: string, b: string): string
  {
    if |b| > 0 && b[0] == Sep then b
    else if a == [] || a[|a| - 1] == Sep then a + b
    else a + [Sep] + b
  }

  /** The joined path ends with b, and starts with a unless b is absolute. */
  lemma JoinEndsWithName(a: string, b: string)
    ensures |b| <= |Join(a, b)| && Join(a, b)[|Join(a, b)| - |b|..] == b
    ensures (|b| > 0 && b[0] == Sep) || a <= Join(a, b)
  {
  }

  /** Joining a folder with a plain file name, then taking the basename, gives the file name back. */
  lemma BasenameOfJoin(a: string, b: string)
    requires Sep !in b
    ensures Basename(Join(a, b)) == b
  {
    var r := Join(a, b);
    if a == [] {
      assert r == b;
      RFindUnique(r, Sep, -1);
    } else {
      var prefix := if a[|a| - 1] == Sep then a else a + [Sep];
      assert r == prefix + b;
      forall i | |prefix| - 1 < i < |r| ensures r[i] != Sep {
        assert r[i] == b[i - |prefix|];
      }
      RFindUnique(r, Sep, |prefix| - 1);
      assert r[|prefix|..] == b;
    }
  }

  /**
   * A root whose last component holds a non-dot character, followed by an
   * extension such as ".pdf", is split back into exactly that root and extension.
   */
  lemma SplitExtOfRootAndExt(root: string, ext: string)
    requires Sep !in root && HasNonDot(root, 0, |root|)
    requires |ext| > 0 && ext[0] == ExtSep && ExtSep !in ext[1..] && Sep !in ext
    ensures SplitExt(root + ext) == (root, ext)
  {
    var p := root + ext;
    RFindUnique(p, Sep, -1);
    forall i | |root| < i < |p| ensures p[i] != ExtSep {
      assert p[i] == ext[1..][i - |root| - 1];
    }
    RFindUnique(p, ExtSep, |root|);
    var i :| 0 <= i < |root| && root[i] != ExtSep;
    assert p[i] != ExtSep;
  }
}
