/** `os.path.basename` and `os.path.splitext` on POSIX paths. */
module Paths {
  import opened Wrappers
  import opened Text

  /** `os.path.basename(p)`: what follows the last `/`. */
  function Basename(p: string): (r: string)
    ensures forall j :: 0 <= j < |r| ==> r[j] != '/'
    ensures EndsWith(p, r)
    ensures |r| < |p| ==> p[|p| - |r| - 1] == '/'
  {
    AfterLast(p, '/')
  }

  /** `p.rfind(c)`, as None instead of -1. */
  function LastIndex(s: string, c: char): (r: Option<nat>)
    ensures r.None? <==> c !in s
    ensures r.Some? ==> r.value < |s| && s[r.value] == c && forall j :: r.value < j < |s| ==> s[j] != c
  {
    if s == [] then None
    else if s[|s| - 1] == c then Some(|s| - 1)
    else
      var r := LastIndex(s[..|s| - 1], c);
      assert r.None? ==> s == s[..|s| - 1] + [s[|s| - 1]];
      r
  }

  /** Some character of `t` is not a dot. */
  predicate HasNonDot(t: string) {
    exists j :: 0 <= j < |t| && t[j] != '.'
  }

  /** `os.path.splitext(p)`: the extension runs from the last dot of the
      final component to the end, provided that dot is not part of a run
      of leading dots; otherwise the extension is empty. */
  function SplitExt(p: string): (r: (string, string))
    ensures r.0 + r.1 == p
    ensures r.1 == [] || r.1[0] == '.'
    ensures forall j :: 1 <= j < |r.1| ==> r.1[j] != '.'
    ensures forall j :: 0 <= j < |r.1| ==> r.1[j] != '/'
  {
    var start := |p| - |Basename(p)|;
    match LastIndex(p, '.')
    case Some(i) =>
      if i >= start && HasNonDot(p[start..i]) then
        assert forall j :: 0 <= j < |p| - i ==> p[i..][j] == Basename(p)[i - start + j];
        (p[..i], p[i..])
      else (p, "")
    case None => (p, "")
  }
}
