/**
 * Path strings and the handful of JavaScript / Node string operations the
 * extension applies to them: `indexOf`, `substring`, `slice(0, -k)`,
 * `path.join`, `path.basename`, `path.dirname`, `path.extname`,
 * `toLowerCase` and the `<` comparison of strings.
 *
 * The separator is fixed to the Windows one: the extension hard-codes
 * backslashes in its pair resolver, so that is the platform it was written for.
 */
module Paths {

  type Path = string

  /** `path.sep` */
  const Sep: char := '\\'

  /** `t` occurs in `s` starting at index `i` */
  predicate OccursAt(s: string, t: string, i: int) {
    0 <= i && i + |t| <= |s| && s[i..i + |t|] == t
  }

  /** `s.indexOf(t)`: the first index at which `t` occurs in `s`, or -1 */
  function IndexOf(s: string, t: string): (r: int)
    ensures -1 <= r <= |s|
    ensures r >= 0 ==> OccursAt(s, t, r)
    ensures forall j :: 0 <= j && (r < 0 || j < r) ==> !OccursAt(s, t, j)
  {
    IndexFrom(s, t, 0)
  }

  function IndexFrom(s: string, t: string, k: nat): (r: int)
    ensures r == -1 || (k <= r && OccursAt(s, t, r))
    ensures forall j :: k <= j && (r < 0 || j < r) ==> !OccursAt(s, t, j)
    decreases |s| - k
  {
    if k + |t| > |s| then -1
    else if s[k..k + |t|] == t then k
    else IndexFrom(s, t, k + 1)
  }

  /** The last index of character `c` in `s`, or -1 */
  function LastIndexOfChar(s: string, c: char): (r: int)
    ensures -1 <= r < |s|
    ensures r >= 0 ==> s[r] == c
  {
    if s == [] then -1
    else if s[|s| - 1] == c then |s| - 1
    else LastIndexOfChar(s[..|s| - 1], c)
  }

  /** No occurrence of the character follows its last index. */
  lemma {:induction false} LastIndexOfCharIsLast(s: string, c: char)
    ensures forall j :: LastIndexOfChar(s, c) < j < |s| ==> s[j] != c
  {
    if s != [] && s[|s| - 1] != c {
      LastIndexOfCharIsLast(s[..|s| - 1], c);
    }
  }

  /** `s.substring(k)` for k >= 0: empty once `k` passes the end */
  function SubstringFrom(s: string, k: nat): (r: string)
    ensures k <= |s| ==> s == s[..k] + r
    ensures k >= |s| ==> r == ""
  {
    if k >= |s| then "" else s[k..]
  }

  /**
   * `s.slice(0, -k)`. JavaScript reads `-0` as 0, so dropping an empty
   * suffix yields the empty string rather than `s`.
   */
  function DropEnd(s: string, k: nat): (r: string)
    ensures k == 0 || k >= |s| ==> r == ""
    ensures 0 < k < |s| ==> s == r + s[|s| - k..]
  {
    if k == 0 || k >= |s| then "" else s[..|s| - k]
  }

  /** Dropping a proper, non-empty suffix leaves the prefix. */
  lemma DropSuffix(x: string, y: string)
    requires 0 < |y| && x != ""
    ensures DropEnd(x + y, |y|) == x
  {
    assert (x + y)[..|x|] == x;
  }

  predicate EndsWithSep(s: string) { |s| > 0 && s[|s| - 1] == Sep }
  predicate StartsWithSep(s: string) { |s| > 0 && s[0] == Sep }

  /**
   * `path.join(a, b)`, simplified: empty parts are dropped and exactly one
   * separator stands at the junction; no other normalisation is done.
   */
  function Join(a: Path, b: Path): (r: Path)
    ensures a != "" && b != "" && !EndsWithSep(a) && !StartsWithSep(b) ==> r == a + [Sep] + b
    ensures a == "" ==> r == b
    ensures b == "" ==> r == a
  {
    if a == "" then b
    else if b == "" then a
    else if EndsWithSep(a) && StartsWithSep(b) then a + b[1..]
    else if EndsWithSep(a) || StartsWithSep(b) then a + b
    else a + [Sep] + b
  }

  /** `path.basename(p)`: what follows the last separator */
  function Basename(p: Path): (r: string)
    ensures |r| <= |p|
    ensures Sep !in r
  {
    var k := LastIndexOfChar(p, Sep);
    LastIndexOfCharIsLast(p, Sep);
    if k < 0 then p else p[k + 1..]
  }

  /** The base name is what the path ends with. */
  lemma BasenameSuffix(p: Path)
    ensures p == p[..|p| - |Basename(p)|] + Basename(p)
  {
    var b, k := Basename(p), LastIndexOfChar(p, Sep);
    if k >= 0 {
      assert b == p[k + 1..];
      TakeDrop(p, k + 1);
    }
  }

  /** Concatenation is associative. */
  lemma AppendAssoc(a: string, b: string, c: string)
    ensures (a + b) + c == a + (b + c)
  {
  }

  /** A sequence is its first `n` elements followed by the rest. */
  lemma TakeDrop(s: string, n: nat)
    requires n <= |s|
    ensures s[..n] + s[n..] == s
  {
  }

  /** What precedes the base name is empty or ends with a separator. */
  lemma BasenameFollowsSep(p: Path)
    ensures var d := DropEnd(p, |Basename(p)|); d == "" || EndsWithSep(d)
  {
    var k := LastIndexOfChar(p, Sep);
    var b := Basename(p);
    assert |b| == |p| - k - 1;
    if 0 < |b| < |p| {
      assert DropEnd(p, |b|) == p[..k + 1];
    }
  }

  /** `path.dirname(p)`: what precedes the last separator ("." when there is none) */
  function Dirname(p: Path): (r: Path)
    ensures LastIndexOfChar(p, Sep) > 0 ==> p == r + [Sep] + Basename(p)
  {
    var k := LastIndexOfChar(p, Sep);
    if k < 0 then "." else if k == 0 then [Sep] else p[..k]
  }

  /**
   * `path.extname(p)`: from the last dot of the base name on, unless that dot
   * opens the base name, or the base name is "..".
   */
  function ExtName(p: Path): (r: string)
    ensures r == "" || (r[0] == '.' && |r| < |Basename(p)| && Basename(p) == Basename(p)[..|Basename(p)| - |r|] + r)
  {
    var b := Basename(p);
    var d := LastIndexOfChar(b, '.');
    if d <= 0 || b == ".." then "" else b[d..]
  }

  /** An extension is part of the base name, so it holds no separator. */
  lemma ExtNameHasNoSep(p: Path)
    ensures Sep !in ExtName(p)
  {
    var b, r := Basename(p), ExtName(p);
    if r != "" {
      var k := |b| - |r|;
      assert b[k..] == r by {
        assert b == b[..k] + r;
      }
      assert forall c :: c in b[k..] ==> c in b;
    }
  }

  /** `path.parse(p).name`: the base name without its extension */
  function ParseName(p: Path): (r: string)
    ensures Basename(p) == r + ExtName(p)
  {
    var b := Basename(p);
    b[..|b| - |ExtName(p)|]
  }

  /** ASCII `toLowerCase` */
  function LowerChar(c: char): char {
    if 'A' <= c <= 'Z' then (c as int + 32) as char else c
  }

  function Lower(s: string): (r: string)
    ensures |r| == |s|
    ensures forall i :: 0 <= i < |s| ==> r[i] == LowerChar(s[i])
  {
    if s == [] then [] else [LowerChar(s[0])] + Lower(s[1..])
  }

  /** JavaScript `a < b` on strings: lexicographic by character code, a proper prefix first */
  function StrLess(a: string, b: string): bool {
    if a == [] then b != []
    else if b == [] then false
    else if a[0] != b[0] then a[0] < b[0]
    else StrLess(a[1..], b[1..])
  }

  lemma {:induction false} StrLessIrreflexive(a: string)
    ensures !StrLess(a, a)
  {
    if a != [] { StrLessIrreflexive(a[1..]); }
  }

  lemma {:induction false} StrLessAsymmetric(a: string, b: string)
    requires StrLess(a, b)
    ensures !StrLess(b, a)
  {
    if a != [] && b != [] && a[0] == b[0] { StrLessAsymmetric(a[1..], b[1..]); }
  }

  lemma {:induction false} StrLessTotal(a: string, b: string)
    requires a != b
    ensures StrLess(a, b) || StrLess(b, a)
  {
    if a != [] && b != [] && a[0] == b[0] {
      assert a == [a[0]] + a[1..] && b == [b[0]] + b[1..];
      StrLessTotal(a[1..], b[1..]);
    }
  }

  lemma {:induction false} StrLessTransitive(a: string, b: string, c: string)
    requires StrLess(a, b) && StrLess(b, c)
    ensures StrLess(a, c)
  {
    if a != [] && b != [] && c != [] && a[0] == b[0] && b[0] == c[0] {
      StrLessTransitive(a[1..], b[1..], c[1..]);
    }
  }

  /** Once `t` first occurs at the end of `a + t`, appending text does not move the first occurrence. */
  lemma IndexOfExtended(a: string, t: string, c: string)
    requires IndexOf(a + t, t) == |a|
    ensures IndexOf(a + t + c, t) == |a|
  {
    var s := a + t + c;
    assert s[|a|..|a| + |t|] == t;
    assert OccursAt(s, t, |a|);
    forall j | 0 <= j < |a|
      ensures !OccursAt(s, t, j)
    {
      assert s[j..j + |t|] == (a + t)[j..j + |t|];
      assert !OccursAt(a + t, t, j);
    }
  }

  /** The base name of a path ending in a separator followed by a separator-free name is that name. */
  lemma BasenameAfterSep(a: string, n: string)
    requires a == "" || EndsWithSep(a)
    requires Sep !in n
    ensures Basename(a + n) == n
  {
    var s := a + n;
    var k := LastIndexOfChar(s, Sep);
    LastIndexOfCharIsLast(s, Sep);
    assert forall j :: |a| <= j < |s| ==> s[j] == n[j - |a|];
    if a != "" {
      assert s[|a| - 1] == Sep;
    }
    assert k == |a| - 1;
    assert s[k + 1..] == n;
  }

  /** The last occurrence of `c` in `x + [c] + y`, when `y` holds none, is the one between them. */
  lemma {:induction false} LastIndexOfCharAt(x: string, c: char, y: string)
    requires c !in y
    ensures LastIndexOfChar(x + [c] + y, c) == |x|
  {
    var s := x + [c] + y;
    if y != [] {
      var y' := y[..|y| - 1];
      assert s[..|s| - 1] == x + [c] + y';
      assert s[|s| - 1] == y[|y| - 1];
      LastIndexOfCharAt(x, c, y');
    }
  }

  /** A base name `name.ext` with a dot-free `ext` has extension `.ext` and name `name`. */
  lemma ExtNameFromBasename(p: Path, name: string, ext: string)
    requires Basename(p) == name + ['.'] + ext
    requires name != "" && ext != "" && '.' !in ext
    ensures ExtName(p) == "." + ext
    ensures ParseName(p) == name
  {
    var b := Basename(p);
    LastIndexOfCharAt(name, '.', ext);
    assert |b| > 2;
    assert b[|name|..] == "." + ext;
  }

  /** The extension of `dir\name.ext` for a separator-free, non-empty `name` and a dot-free `ext`. */
  lemma ExtNameOfName(dir: string, name: string, ext: string)
    requires dir == "" || EndsWithSep(dir)
    requires name != "" && Sep !in name
    requires ext != "" && Sep !in ext && '.' !in ext
    ensures ExtName(dir + name + "." + ext) == "." + ext
    ensures ParseName(dir + name + "." + ext) == name
  {
    var b := name + ['.'] + ext;
    assert Sep !in b;
    var p := dir + name + "." + ext;
    assert p == dir + b;
    BasenameAfterSep(dir, b);
    ExtNameFromBasename(p, name, ext);
  }
}
