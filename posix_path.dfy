/**
 * `os.path.splitext` as Python implements it on POSIX systems: the extension
 * starts at the last '.' of the final path component, provided that '.' is not
 * part of the component's leading run of dots (so ".bashrc" has none).
 */
module PosixPath {
  import opened PyStr

  /** True when every character of `s` is a '.'. */
  predicate AllDots(s: string)
  {
    forall i :: 0 <= i < |s| ==> s[i] == '.'
  }

  /** `os.path.splitext(p)`: the pair (root, ext). */
  function SplitExt(p: string): (string, string)
  {
    var sepIndex := RFind(p, '/');
    var dotIndex := RFind(p, '.');
    if dotIndex > sepIndex && !AllDots(p[sepIndex + 1..dotIndex]) then (p[..dotIndex], p[dotIndex..])
    else (p, "")
  }

  /**
   * An independent statement of when `p` has an extension that starts at `d`:
   * `p[d]` is a '.', no '.' or '/' follows it, and somewhere between the start of
   * the final component and `d` there is a character other than '.'.
   */
  ghost predicate ExtensionAt(p: string, d: int)
  {
    && 0 <= d < |p| && p[d] == '.'
    && (forall k :: d < k < |p| ==> p[k] != '.' && p[k] != '/')
    && exists j :: 0 <= j < d && p[j] != '.' && forall k :: j <= k < d ==> p[k] != '/'
  }

  /** `p` has an extension somewhere. */
  ghost predicate HasExtension(p: string)
  {
    exists d :: ExtensionAt(p, d)
  }

  /**
   * `splitext` only cuts `p` in two; the extension is empty exactly when `p`
   * has no extension position, and otherwise runs from that position to the end.
   */
  lemma SplitExtSpec(p: string)
    ensures SplitExt(p).0 + SplitExt(p).1 == p
    ensures SplitExt(p).1 != "" <==> HasExtension(p)
    ensures forall d :: ExtensionAt(p, d) ==> SplitExt(p).1 == p[d..]
  {
    var sepIndex := RFind(p, '/');
    var dotIndex := RFind(p, '.');
    if dotIndex > sepIndex && !AllDots(p[sepIndex + 1..dotIndex]) {
      var i :| 0 <= i < dotIndex - sepIndex - 1 && p[sepIndex + 1..dotIndex][i] != '.';
      var j := sepIndex + 1 + i;
      assert p[j] != '.' && forall k :: j <= k < dotIndex ==> p[k] != '/';
      assert ExtensionAt(p, dotIndex);
    }
    forall d | ExtensionAt(p, d)
      ensures d == dotIndex && dotIndex > sepIndex && !AllDots(p[sepIndex + 1..dotIndex])
    {
      var j :| 0 <= j < d && p[j] != '.' && forall k :: j <= k < d ==> p[k] != '/';
      assert sepIndex < j by {
        assert sepIndex >= 0 ==> p[sepIndex] == '/';
      }
      assert p[sepIndex + 1..dotIndex][j - sepIndex - 1] == p[j];
    }
  }

  /** A path without any '.' has no extension. */
  lemma NoDotNoExtension(p: string)
    requires '.' !in p
    ensures SplitExt(p) == (p, "")
  {
    RFindFound(p, '.');
  }
}
