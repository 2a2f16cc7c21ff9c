/**
  The string operations the scripts use to build file names: the first
  field of `str.split`, and `os.path.join` and `os.path.splitext` as
  Python defines them for POSIX paths ('/' separates, '.' starts an
  extension).
 */
module PosixPath {

  /** The first position at or after `i` holding `sep`, or `|s|`. */
  function FindFrom(s: string, sep: char, i: nat): (r: nat)
    requires i <= |s|
    ensures i <= r <= |s|
    ensures r < |s| ==> s[r] == sep
    ensures forall j | i <= j < r :: s[j] != sep
    decreases |s| - i
  {
    if i == |s| || s[i] == sep then i else FindFrom(s, sep, i + 1)
  }

  /** `s.split(sep)[0]`: everything before the first `sep`. */
  function SplitHead(s: string, sep: char): (r: string)
    ensures |r| <= |s| && r == s[..|r|]
    ensures forall i | 0 <= i < |r| :: r[i] != sep
    ensures |r| < |s| ==> s[|r|] == sep
  {
    s[..FindFrom(s, sep, 0)]
  }

  /** The head ends at the first separator whatever follows it. */
  lemma SplitHeadOf(head: string, sep: char, tail: string)
    requires forall i | 0 <= i < |head| :: head[i] != sep
    ensures SplitHead(head + [sep] + tail, sep) == head
  {
    var s := head + [sep] + tail;
    var r := SplitHead(s, sep);
    assert s[|head|] == sep;
    assert s[..|head|] == head;
  }

  /** `os.path.join(a, b)`: an absolute `b` replaces `a`; otherwise a '/'
      goes between them unless `a` is empty or already ends with one. */
  function Join(a: string, b: string): (r: string)
    ensures |b| > 0 && b[0] == '/' ==> r == b
    ensures !(|b| > 0 && b[0] == '/') ==> exists mid | mid == "" || mid == "/" :: r == a + mid + b
    ensures |r| >= |b| && r[|r| - |b|..] == b
  {
    if |b| > 0 && b[0] == '/' then b
    else if |a| == 0 || a[|a| - 1] == '/' then
      assert a + "" + b == a + b;
      a + b
    else a + "/" + b
  }

  /** Joining a relative name to a directory that does not end in '/'
      puts exactly one '/' between them. */
  lemma JoinRelative(a: string, b: string)
    requires |a| > 0 && a[|a| - 1] != '/'
    requires |b| > 0 && b[0] != '/'
    ensures Join(a, b) == a + "/" + b
  {
  }

  /** The last position of `c` before position `n`, or -1. */
  function RFindBefore(s: string, c: char, n: nat): (r: int)
    requires n <= |s|
    ensures -1 <= r < n
    ensures r >= 0 ==> s[r] == c
    ensures forall j | r < j < n :: s[j] != c
    decreases n
  {
    if n == 0 then -1
    else if s[n - 1] == c then n - 1
    else RFindBefore(s, c, n - 1)
  }

  /** `s.rfind(c)`: the last position of `c`, or -1. */
  function RFind(s: string, c: char): (r: int)
    ensures -1 <= r < |s|
    ensures r >= 0 ==> s[r] == c
    ensures forall j | r < j < |s| :: s[j] != c
  {
    RFindBefore(s, c, |s|)
  }

  /** Some character between `from` and `to` is not a dot. */
  predicate NonDotBetween(p: string, from: int, to: int)
    requires 0 <= from && to <= |p|
  {
    exists k | from <= k < to :: p[k] != '.'
  }

  /** `os.path.splitext(p)`: the extension starts at the last '.' of the
      last path component, unless only dots come before it in that
      component (".bashrc" and "..csv" have no extension). */
  function SplitExt(p: string): (r: (string, string))
    ensures r.0 + r.1 == p
    ensures r.1 == "" || (r.1[0] == '.' && forall i | 0 <= i < |r.1| :: r.1[i] != '/')
  {
    var sepIndex := RFind(p, '/');
    var dotIndex := RFind(p, '.');
    if dotIndex > sepIndex && NonDotBetween(p, sepIndex + 1, dotIndex) then
      assert p[..dotIndex] + p[dotIndex..] == p;
      (p[..dotIndex], p[dotIndex..])
    else
      assert p + "" == p;
      (p, "")
  }

  /** The last occurrence is the one with none after it. */
  lemma RFindUnique(s: string, c: char, i: int)
    requires -1 <= i < |s|
    requires i >= 0 ==> s[i] == c
    requires forall j | i < j < |s| :: s[j] != c
    ensures RFind(s, c) == i
  {
  }

  /** Appending characters other than `c` does not move the last `c`. */
  lemma RFindAppendFree(a: string, b: string, c: char)
    requires forall i | 0 <= i < |b| :: b[i] != c
    ensures RFind(a + b, c) == RFind(a, c)
  {
    var r := RFind(a, c);
    var ab := a + b;
    forall j | r < j < |ab| ensures ab[j] != c {
      if j < |a| { assert ab[j] == a[j]; } else { assert ab[j] == b[j - |a|]; }
    }
    if r >= 0 { assert ab[r] == a[r]; }
    RFindUnique(ab, c, r);
  }

  /** `SplitExt` given where the last '/' and the last '.' are. */
  lemma SplitExtAt(p: string, sep: int, dot: int)
    requires RFind(p, '/') == sep && RFind(p, '.') == dot
    ensures dot > sep && NonDotBetween(p, sep + 1, dot) ==> SplitExt(p) == (p[..dot], p[dot..])
    ensures !(dot > sep && NonDotBetween(p, sep + 1, dot)) ==> SplitExt(p) == (p, "")
  {
  }

  /** The case of a name made of a stem and a final extension: `ext`
      (a dot and no dot or '/' after it) is split off exactly when the
      stem, after its last '/', holds something other than dots. */
  lemma SplitExtOf(stem: string, ext: string)
    requires |ext| > 0 && ext[0] == '.'
    requires forall i | 1 <= i < |ext| :: ext[i] != '.' && ext[i] != '/'
    ensures var s := RFind(stem, '/');
            SplitExt(stem + ext) == if NonDotBetween(stem, s + 1, |stem|) then (stem, ext) else (stem + ext, "")
  {
    var p := stem + ext;
    forall j | |stem| < j < |p| ensures p[j] != '.' {
      assert p[j] == ext[j - |stem|];
    }
    assert p[|stem|] == '.';
    RFindUnique(p, '.', |stem|);
    RFindAppendFree(stem, ext, '/');
    var ss := RFind(stem, '/');
    assert NonDotBetween(p, ss + 1, |stem|) == NonDotBetween(stem, ss + 1, |stem|) by {
      if NonDotBetween(stem, ss + 1, |stem|) {
        var k :| ss + 1 <= k < |stem| && stem[k] != '.';
        assert p[k] == stem[k];
      }
      if NonDotBetween(p, ss + 1, |stem|) {
        var k :| ss + 1 <= k < |stem| && p[k] != '.';
        assert stem[k] == p[k];
      }
    }
    assert p[..|stem|] == stem && p[|stem|..] == ext;
    SplitExtAt(p, ss, |stem|);
  }
}
