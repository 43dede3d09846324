/** The string and path helpers of the Python standard library that the module
    relies on: `str.isspace`/`str.strip`, `str.endswith`, `str.join`,
    `os.path.join` and `os.path.splitext` (POSIX flavour). */
module Text {

  /** `c.isspace()` in Python 3: the characters `str.strip()` removes by default. */
  predicate IsSpace(c: char) {
    || ('\t' <= c <= '\r')
    || ('\U{1C}' <= c <= '\U{1F}')
    || c == ' ' || c == '\U{85}' || c == '\U{A0}' || c == '\U{1680}'
    || ('\U{2000}' <= c <= '\U{200A}')
    || c == '\U{2028}' || c == '\U{2029}' || c == '\U{202F}' || c == '\U{205F}' || c == '\U{3000}'
  }

  /** `s.lstrip()`: the longest suffix of `s` that does not start with whitespace. */
  function TrimStart(s: string): (r: string)
    ensures |r| <= |s| && r == s[|s| - |r|..]
    ensures forall k :: 0 <= k < |s| - |r| ==> IsSpace(s[k])
    ensures r == [] || !IsSpace(r[0])
  {
    if s != [] && IsSpace(s[0]) then TrimStart(s[1..]) else s
  }

  /** `s.rstrip()`: the longest prefix of `s` that does not end with whitespace. */
  function TrimEnd(s: string): (r: string)
    ensures |r| <= |s| && r == s[..|r|]
    ensures forall k :: |r| <= k < |s| ==> IsSpace(s[k])
    ensures r == [] || !IsSpace(r[|r| - 1])
  {
    if s != [] && IsSpace(s[|s| - 1]) then TrimEnd(s[..|s| - 1]) else s
  }

  /** `s.strip()`: whitespace removed from both ends. */
  function Strip(s: string): (r: string)
    ensures |r| <= |s|
    ensures r == [] || (!IsSpace(r[0]) && !IsSpace(r[|r| - 1]))
  {
    TrimStart(TrimEnd(s))
  }

  /** `s.strip()` is the slice `s[i..j]` between a whitespace-only prefix and a
      whitespace-only suffix, and begins and ends with a non-whitespace character. */
  lemma StripIsSlice(s: string) returns (i: nat, j: nat)
    ensures i <= j <= |s| && Strip(s) == s[i..j]
    ensures forall k :: 0 <= k < i ==> IsSpace(s[k])
    ensures forall k :: j <= k < |s| ==> IsSpace(s[k])
    ensures i < j ==> !IsSpace(s[i]) && !IsSpace(s[j - 1])
  {
    var t := TrimEnd(s);
    var r := TrimStart(t);
    i, j := |t| - |r|, |t|;
    assert t == s[..j];
    assert r == t[i..];
    assert r == s[i..j];
    forall k | 0 <= k < i ensures IsSpace(s[k]) {
      assert s[k] == t[k];
    }
    if i < j {
      assert s[i] == r[0];
      assert s[j - 1] == t[|t| - 1];
    }
  }

  /** Stripping twice is stripping once. */
  lemma StripIdempotent(s: string)
    ensures Strip(Strip(s)) == Strip(s)
  {
    var t := TrimEnd(s);
    var r := TrimStart(t);
    if r != [] {
      assert r == t[|t| - |r|..];
      assert r[|r| - 1] == t[|t| - 1];
      assert !IsSpace(r[|r| - 1]);
      assert TrimEnd(r) == r;
      assert !IsSpace(r[0]);
    }
  }

  /** `s.endswith(suffix)`. */
  predicate EndsWith(s: string, suffix: string) {
    |suffix| <= |s| && s[|s| - |suffix|..] == suffix
  }

  /** `sep.join(parts)`. */
  function Join(parts: seq<string>, sep: string): (r: string)
    ensures parts == [] ==> r == []
    ensures |parts| == 1 ==> r == parts[0]
  {
    if parts == [] then []
    else if |parts| == 1 then parts[0]
    else parts[0] + sep + Join(parts[1..], sep)
  }

  /** `s.rfind(c)`: the index of the last `c` in `s`, or -1. */
  function RFind(s: string, c: char): (r: int)
    ensures -1 <= r < |s|
    ensures r >= 0 ==> s[r] == c
    ensures forall k :: r < k < |s| ==> s[k] != c
  {
    if s == [] then -1
    else if s[|s| - 1] == c then |s| - 1
    else RFind(s[..|s| - 1], c)
  }

  /** `posixpath.join(a, b)`: `b` alone when it is absolute, otherwise `a` and `b`
      with exactly the one separator `a` does not already end with. */
  function JoinPath(a: string, b: string): (r: string)
    ensures EndsWith(r, b)
    ensures (b == [] || b[0] != '/') ==> |a| <= |r| && r[..|a|] == a
    ensures (b != [] && b[0] == '/') ==> r == b
    ensures (b == [] || b[0] != '/') ==>
      |r| == |a| + |b| + (if a == [] || a[|a| - 1] == '/' then 0 else 1)
  {
    if b != [] && b[0] == '/' then b
    else if a == [] || a[|a| - 1] == '/' then a + b
    else a + "/" + b
  }

  /** The one separator `JoinPath` inserts between a folder and a relative name
      is `/`. */
  lemma JoinPathSeparator(a: string, b: string)
    requires b == [] || b[0] != '/'
    requires a != [] && a[|a| - 1] != '/'
    ensures |JoinPath(a, b)| == |a| + 1 + |b|
    ensures JoinPath(a, b)[..|a|] == a && JoinPath(a, b)[|a|] == '/' && JoinPath(a, b)[|a| + 1..] == b
  {
  }

  /** Under one folder, two relative names give two different file names. */
  lemma JoinPathInjective(a: string, b1: string, b2: string)
    requires b1 == [] || b1[0] != '/'
    requires b2 == [] || b2[0] != '/'
    requires JoinPath(a, b1) == JoinPath(a, b2)
    ensures b1 == b2
  {
    var r := JoinPath(a, b1);
    var n := if a == [] || a[|a| - 1] == '/' then |a| else |a| + 1;
    assert r[n..] == b1;
    assert r[n..] == b2;
  }

  /** `posixpath.splitext(p)`: split off the extension of the last path
      component, i.e. from its last dot on, unless that dot is only preceded by
      dots within the component (leading dots do not start an extension). */
  function Splitext(p: string): (r: (string, string))
    ensures r.0 + r.1 == p
    ensures r.1 == [] || (r.1[0] == '.' && '.' !in r.1[1..] && '/' !in r.1)
    ensures r.1 != [] <==>
      exists j, k :: RFind(p, '/') < j < k < |p| && p[j] != '.' && p[k] == '.'
  {
    var sep := RFind(p, '/');
    var dot := RFind(p, '.');
    if dot > sep && exists k :: sep + 1 <= k < dot && p[k] != '.' then
      assert p[dot..][1..] == p[dot + 1..];
      (p[..dot], p[dot..])
    else
      (p, [])
  }

  /** `RFind` is determined by the position of the last occurrence. */
  lemma RFindAt(s: string, c: char, i: int)
    requires -1 <= i < |s|
    requires i >= 0 ==> s[i] == c
    requires forall k :: i < k < |s| ==> s[k] != c
    ensures RFind(s, c) == i
  {
  }

  /** Worked cases of `os.path.splitext`. */
  lemma SplitextExamples()
    ensures Splitext("js/app.min.js") == ("js/app.min", ".js")
    ensures Splitext("lib.d/readme") == ("lib.d/readme", "")
  {
    RFindAt("js/app.min.js", '.', 10);
    RFindAt("js/app.min.js", '/', 2);
    assert "js/app.min.js"[3] != '.';
    assert "js/app.min.js"[..10] == "js/app.min";
    assert "js/app.min.js"[10..] == ".js";
    RFindAt("lib.d/readme", '/', 5);
    RFindAt("lib.d/readme", '.', 3);
  }

  /** Leading dots of the last component start no extension. */
  lemma SplitextLeadingDots()
    ensures Splitext(".eslintrc") == (".eslintrc", "")
    ensures Splitext("..js") == ("..js", "")
  {
    RFindAt(".eslintrc", '.', 0);
    RFindAt(".eslintrc", '/', -1);
    RFindAt("..js", '.', 1);
    RFindAt("..js", '/', -1);
  }
}
