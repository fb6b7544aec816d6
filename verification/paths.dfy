/** The `os.path` and `pathlib` operations the name builders rely on. */
module Paths {
  import opened Text

  /** `os.path.join(a, b)` on POSIX: an absolute `b` wins, otherwise a single
      '/' is inserted unless `a` is empty or already ends with one. */
  function Join(a: string, b: string): (r: string)
    ensures |b| > 0 && b[0] == '/' ==> r == b
    ensures (|b| == 0 || b[0] != '/') ==>
      && |a| + |b| <= |r| <= |a| + |b| + 1
      && r[..|a|] == a && r[|r| - |b|..] == b
  {
    if |b| > 0 && b[0] == '/' then b
    else if |a| == 0 || a[|a| - 1] == '/' then a + b
    else a + "/" + b
  }

  /** Index of the last occurrence of `c` in `s`. */
  function LastIndexOf(s: string, c: char): (k: nat)
    requires c in s
    ensures k < |s| && s[k] == c && c !in s[k + 1..]
  {
    if s[|s| - 1] == c then |s| - 1
    else
      assert c in s[..|s| - 1] by {
        var w :| 0 <= w < |s| && s[w] == c;
        assert s[..|s| - 1][w] == c;
      }
      var k := LastIndexOf(s[..|s| - 1], c);
      assert s[k + 1..] == s[..|s| - 1][k + 1..] + [s[|s| - 1]];
      k
  }

  /** `os.path.basename(p)`: the part after the last '/'. */
  function Basename(p: string): (b: string)
    ensures '/' !in b
    ensures |b| <= |p| && p[|p| - |b|..] == b
    ensures '/' !in p ==> b == p
    ensures '/' in p ==> |b| < |p| && p[|p| - |b| - 1] == '/'
  {
    if '/' !in p then p else p[LastIndexOf(p, '/') + 1..]
  }

  /** First component of `os.path.splitext(b)` for a basename `b`: the text
      before the last '.', unless every character before that dot is a dot
      (as in ".bashrc"), in which case nothing is split off. */
  function SplitextRoot(b: string): (r: string)
    ensures |r| <= |b| && r == b[..|r|]
  {
    if '.' !in b then b
    else
      var d := LastIndexOf(b, '.');
      if exists k :: 0 <= k < d && b[k] != '.' then b[..d] else b
  }

  /** `pathlib.PurePath(name).stem` for a file name: drops the last suffix,
      where a suffix needs a dot that is neither the first nor the last
      character. */
  function Stem(name: string): (r: string)
    ensures |r| <= |name| && r == name[..|r|]
  {
    if '.' !in name then name
    else
      var i := LastIndexOf(name, '.');
      if 0 < i < |name| - 1 then name[..i] else name
  }
}
