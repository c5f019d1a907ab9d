/** POSIX `os.path.splitext`, which the parser's format hook uses to read
    a file's extension. */
module PathExt {

  /** `s.rfind(ch)`: the last index of `ch` in `s`, or -1. */
  function RFind(s: string, ch: char): (r: int)
    ensures -1 <= r < |s|
    ensures r >= 0 ==> s[r] == ch
    ensures forall k :: r < k < |s| ==> s[k] != ch
    decreases |s|
  {
    if s == [] then -1
    else if s[|s| - 1] == ch then |s| - 1
    else RFind(s[..|s| - 1], ch)
  }

  /** Some character of `p[lo..hi]` is not a dot. */
  predicate HasNonDot(p: string, lo: int, hi: int)
    requires 0 <= lo && hi <= |p|
  {
    exists i :: lo <= i < hi && p[i] != '.'
  }

  /** `os.path.splitext(p)`: the extension starts at the last dot of the
      last path component, unless everything before that dot in the
      component is dots (a leading-dot name has no extension). */
  function SplitExt(p: string): (r: (string, string))
    ensures r.0 + r.1 == p
  {
    var sepIndex := RFind(p, '/');
    var dotIndex := RFind(p, '.');
    if dotIndex > sepIndex && HasNonDot(p, sepIndex + 1, dotIndex) then (p[..dotIndex], p[dotIndex..])
    else (p, "")
  }

  /** A usable extension: a dot followed by characters that are neither
      dots nor separators. */
  predicate IsExtension(ext: string) {
    |ext| >= 2 && ext[0] == '.' && forall k :: 1 <= k < |ext| ==> ext[k] != '.' && ext[k] != '/'
  }

  /** The last component of `stem` has a character other than a dot. */
  predicate BaseNameHasNonDot(stem: string) {
    exists i :: 0 <= i < |stem| && stem[i] != '.' && stem[i] != '/' &&
                forall j :: i < j < |stem| ==> stem[j] != '/'
  }

  /** The path ends in `ext` after a file name that is not all dots. */
  predicate EndsInExtension(p: string, ext: string) {
    |p| >= |ext| && p[|p| - |ext|..] == ext && BaseNameHasNonDot(p[..|p| - |ext|])
  }

  /** `splitext` yields the extension `ext` exactly when the path ends in
      `ext` and the file name before it is not all dots. */
  lemma SplitExtYields(p: string, ext: string)
    requires IsExtension(ext)
    ensures SplitExt(p).1 == ext <==> EndsInExtension(p, ext)
  {
    var sepIndex, dotIndex := RFind(p, '/'), RFind(p, '.');
    if SplitExt(p).1 == ext {
      assert dotIndex > sepIndex && HasNonDot(p, sepIndex + 1, dotIndex);
      assert p[dotIndex..] == ext;
      var stem := p[..dotIndex];
      var i :| sepIndex + 1 <= i < dotIndex && p[i] != '.';
      assert stem[i] == p[i];
      forall j | i < j < |stem| ensures stem[j] != '/' {
        assert stem[j] == p[j];
      }
      assert BaseNameHasNonDot(stem);
    }
    if |p| >= |ext| && p[|p| - |ext|..] == ext && BaseNameHasNonDot(p[..|p| - |ext|]) {
      var d := |p| - |ext|;
      var stem := p[..d];
      assert p[d] == ext[0];
      forall k | d < k < |p| ensures p[k] != '.' && p[k] != '/' {
        assert p[k] == ext[k - d];
      }
      assert dotIndex == d;
      var i :| 0 <= i < |stem| && stem[i] != '.' && stem[i] != '/' && forall j :: i < j < |stem| ==> stem[j] != '/';
      assert p[i] == stem[i];
      forall j | i < j < d ensures p[j] != '/' {
        assert stem[j] == p[j];
      }
      assert HasNonDot(p, sepIndex + 1, dotIndex);
    }
  }
}
