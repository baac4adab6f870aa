/**
 The parts of Python's `pathlib` that the analyzer relies on, on POSIX paths.

 A path is the sequence of its components below the filesystem anchor: the
 absolute path `/tmp/c/src/app.py` is `["tmp", "c", "src", "app.py"]`.
 `pathlib`'s `parts` also lists the anchor `"/"`, which never equals a
 directory name the analyzer skips, so leaving it out changes no decision.
 */
module Paths {

  type Path = seq<string>

  /** `PurePath.name`: the final component, or "" for the anchor itself. */
  function Name(p: Path): string
  {
    if p == [] then "" else p[|p| - 1]
  }

  /** `str.rfind('.')`: the index of the last dot, or -1 when there is none. */
  function LastDot(s: string): (i: int)
    ensures -1 <= i < |s|
    ensures 0 <= i ==> s[i] == '.'
    ensures forall j :: i < j < |s| ==> s[j] != '.'
  {
    if s == [] then -1
    else if s[|s| - 1] == '.' then |s| - 1
    else LastDot(s[..|s| - 1])
  }

  /**
   `PurePath.suffix` of a file name: from the last dot to the end, provided
   that dot is neither the first character (a hidden file such as ".py" has
   no suffix) nor the last one ("notes." has none either).
   */
  function Suffix(name: string): (r: string)
    ensures r == "" <==>
      (|name| == 0 || name[|name| - 1] == '.' || forall j :: 0 < j < |name| ==> name[j] != '.')
    ensures r != "" ==>
      2 <= |r| < |name| && r == name[|name| - |r|..] && r[0] == '.' &&
      forall j :: 0 < j < |r| ==> r[j] != '.'
  {
    var i := LastDot(name);
    if 0 < i < |name| - 1 then name[i..] else ""
  }

  /** `str.lower()` on one character, for the ASCII letters. */
  function LowerChar(c: char): char
  {
    if 'A' <= c <= 'Z' then (c as int - 'A' as int + 'a' as int) as char else c
  }

  /** `str.lower()`, character by character, for the ASCII letters. */
  function Lower(s: string): string
  {
    seq(|s|, i requires 0 <= i < |s| => LowerChar(s[i]))
  }

  /** Lower-casing moves no dot: the last dot of `Lower(s)` is the last dot of `s`. */
  lemma {:induction false} LastDotLower(s: string)
    ensures LastDot(Lower(s)) == LastDot(s)
  {
    if s != [] {
      assert Lower(s)[..|s| - 1] == Lower(s[..|s| - 1]);
      LastDotLower(s[..|s| - 1]);
    }
  }

  /** Taking the suffix and lower-casing commute, so `p.suffix.lower()` is the suffix of the lower-cased name. */
  lemma SuffixLower(name: string)
    ensures Suffix(Lower(name)) == Lower(Suffix(name))
  {
    LastDotLower(name);
  }

  /**
   `f.relative_to(f.parent.parent)` as a string: the parent directory's name
   and the file name joined by "/"; a path one component below the anchor
   is its own name and the anchor itself is ".".
   */
  function Rel(p: Path): (r: string)
    ensures |p| >= 1 ==> |Name(p)| <= |r| && r[|r| - |Name(p)|..] == Name(p)
    ensures |p| >= 2 ==> var dir := p[|p| - 2];
      |r| == |dir| + 1 + |Name(p)| && r[..|dir|] == dir && r[|dir|] == '/'
    ensures |p| == 1 ==> r == p[0]
    ensures |p| == 0 ==> r == "."
  {
    if |p| >= 2 then p[|p| - 2] + "/" + p[|p| - 1]
    else if |p| == 1 then p[0]
    else "."
  }
}
