/**
 * The Python builtins the scripts use to build and take apart file names:
 * f-string formatting of non-negative ints, str.endswith, str.replace and
 * posixpath.join. Two more, str.split and posixpath.basename, are not
 * called by the scripts: they read back what the scripts write.
 */
module Text {

  predicate IsDigit(c: char) {
    '0' <= c <= '9'
  }

  predicate AllDigits(s: string) {
    forall i :: 0 <= i < |s| ==> IsDigit(s[i])
  }

  /**
   * What \d matches in a str pattern of Python 3's re module: a Unicode
   * decimal digit, general category Nd. Besides the ASCII digits these are
   * blocks of ten consecutive code points, zero to nine, all above U+065F.
   */
  predicate IsDecimal(c: char) {
    var n := c as int;
    || IsDigit(c)
    || (0x660 <= n < 0x10000 && InDigitBlocks(n, BmpDecimalZeros, 0))
    || (0x10000 <= n && InDigitBlocks(n, SupplementaryDecimalZeros, 0))
  }

  /**
   * The code point of the digit zero of every script with decimal digits
   * in the Basic Multilingual Plane other than ASCII, and in the planes
   * above it, in the Unicode 15.0 tables that Python 3.12 ships (the
   * mathematical digits U+1D7CE-U+1D7FF are five blocks).
   */
  const BmpDecimalZeros: seq<int> := [
    0x0660, 0x06F0, 0x07C0, 0x0966, 0x09E6, 0x0A66, 0x0AE6, 0x0B66,
    0x0BE6, 0x0C66, 0x0CE6, 0x0D66, 0x0DE6, 0x0E50, 0x0ED0, 0x0F20,
    0x1040, 0x1090, 0x17E0, 0x1810, 0x1946, 0x19D0, 0x1A80, 0x1A90,
    0x1B50, 0x1BB0, 0x1C40, 0x1C50, 0xA620, 0xA8D0, 0xA900, 0xA9D0,
    0xA9F0, 0xAA50, 0xABF0, 0xFF10
  ]

  const SupplementaryDecimalZeros: seq<int> := [
    0x104A0, 0x10D30, 0x11066, 0x110F0, 0x11136, 0x111D0, 0x112F0, 0x11450,
    0x114D0, 0x11650, 0x116C0, 0x11730, 0x118E0, 0x11950, 0x11C50, 0x11D50,
    0x11DA0, 0x11F50, 0x16A60, 0x16AC0, 0x16B50, 0x1D7CE, 0x1D7D8, 0x1D7E2,
    0x1D7EC, 0x1D7F6, 0x1E140, 0x1E2F0, 0x1E4F0, 0x1E950, 0x1FBF0
  ]

  /** `n` lies in one of the digit blocks that zeros[i..] start. */
  predicate InDigitBlocks(n: int, zeros: seq<int>, i: nat)
    decreases |zeros| - i
  {
    i < |zeros| && (DigitBlock(n, zeros[i]) || InDigitBlocks(n, zeros, i + 1))
  }

  /** The ten digits zero..nine of one script, starting at code point `zero`. */
  predicate DigitBlock(n: int, zero: int) {
    zero <= n < zero + 10
  }

  predicate AllDecimal(s: string) {
    forall i :: 0 <= i < |s| ==> IsDecimal(s[i])
  }

  /** The ASCII digits f"{n}" prints are decimal digits of the regex. */
  lemma DigitsAreDecimal(s: string)
    requires AllDigits(s)
    ensures AllDecimal(s)
  {
  }

  function DigitChar(d: nat): (c: char)
    requires d < 10
    ensures IsDigit(c) && c as int - '0' as int == d
  {
    ('0' as int + d) as char
  }

  /** f"{n}" for a non-negative int: its decimal digits, most significant first. */
  function NatToString(n: nat): (s: string)
    ensures |s| >= 1 && AllDigits(s)
    ensures |s| > 1 ==> s[0] != '0'
    decreases n
  {
    if n < 10 then [DigitChar(n)] else NatToString(n / 10) + [DigitChar(n % 10)]
  }

  /** The value of a string of decimal digits (the inverse of NatToString). */
  function ParseNat(s: string): nat
    requires AllDigits(s)
    decreases |s|
  {
    if s == [] then 0
    else 10 * ParseNat(s[..|s| - 1]) + (s[|s| - 1] as int - '0' as int)
  }

  lemma {:induction false} ParseNatToString(n: nat)
    ensures ParseNat(NatToString(n)) == n
    decreases n
  {
    if n >= 10 {
      var s := NatToString(n);
      assert s[..|s| - 1] == NatToString(n / 10);
      ParseNatToString(n / 10);
    }
  }

  /** Distinct integers print as distinct strings. */
  lemma NatToStringInjective(m: nat, n: nat)
    ensures NatToString(m) == NatToString(n) <==> m == n
  {
    ParseNatToString(m);
    ParseNatToString(n);
  }

  /**
   * An ASCII digit run, as f"{i}" prints, followed by a text that starts
   * with a non-digit can be read back unambiguously: equal concatenations
   * have equal parts.
   */
  lemma DigitRunCancel(a: string, s1: string, b: string, s2: string)
    requires AllDigits(a) && AllDigits(b)
    requires |s1| > 0 && |s2| > 0 && !IsDigit(s1[0]) && !IsDigit(s2[0])
    requires a + s1 == b + s2
    ensures a == b && s1 == s2
  {
    assert a == (a + s1)[..|a|];
    assert b == (b + s2)[..|b|];
    assert s1 == (a + s1)[|a|..];
    assert s2 == (b + s2)[|b|..];
  }

  /** str.endswith */
  predicate EndsWith(s: string, suffix: string) {
    |suffix| <= |s| && s[|s| - |suffix|..] == suffix
  }

  /** `pat` occurs in `s` starting at position `p`. */
  predicate OccursAt(s: string, pat: string, p: nat) {
    p + |pat| <= |s| && s[p..p + |pat|] == pat
  }

  /**
   * str.replace(pat, rep) with a non-empty `pat`: scan left to right and
   * replace every non-overlapping occurrence.
   */
  function ReplaceAll(s: string, pat: string, rep: string): string
    requires |pat| > 0
    decreases |s|
  {
    if |s| < |pat| then s
    else if s[..|pat|] == pat then rep + ReplaceAll(s[|pat|..], pat, rep)
    else [s[0]] + ReplaceAll(s[1..], pat, rep)
  }

  /** A character absent from `s` and from `rep` is absent from the result of the replace. */
  lemma {:induction false} ReplaceAllAvoids(s: string, pat: string, rep: string, c: char)
    requires |pat| > 0
    requires c !in s && c !in rep
    ensures c !in ReplaceAll(s, pat, rep)
    decreases |s|
  {
    if |s| >= |pat| {
      if s[..|pat|] == pat {
        assert forall k :: 0 <= k < |s[|pat|..]| ==> s[|pat|..][k] == s[k + |pat|];
        ReplaceAllAvoids(s[|pat|..], pat, rep, c);
      } else {
        assert forall k :: 0 <= k < |s[1..]| ==> s[1..][k] == s[k + 1];
        ReplaceAllAvoids(s[1..], pat, rep, c);
      }
    }
  }

  /**
   * When `pat` holds a marker character `pat[j]` that occurs neither in `s`
   * nor earlier in `pat`, the only occurrence of `pat` in `s + pat` is the
   * trailing one, so the replace rewrites just that suffix.
   */
  lemma {:induction false} ReplaceMarkedSuffix(s: string, pat: string, rep: string, j: nat)
    requires j < |pat|
    requires pat[j] !in s && pat[j] !in pat[..j]
    ensures ReplaceAll(s + pat, pat, rep) == s + rep
    decreases |s|
  {
    var t := s + pat;
    if s == [] {
      assert t == pat;
      assert t[|pat|..] == [];
    } else {
      MarkerBlocksEarlyMatch(s, pat, j);
      assert ReplaceAll(t, pat, rep) == [t[0]] + ReplaceAll(t[1..], pat, rep);
      assert t[1..] == s[1..] + pat;
      assert pat[j] !in s[1..] by {
        assert forall c :: c in s[1..] ==> c in s;
      }
      ReplaceMarkedSuffix(s[1..], pat, rep, j);
      assert t[0] == s[0];
      assert s == [s[0]] + s[1..];
    }
  }

  lemma MarkerBlocksEarlyMatch(s: string, pat: string, j: nat)
    requires j < |pat|
    requires pat[j] !in s && pat[j] !in pat[..j]
    requires s != []
    ensures (s + pat)[..|pat|] != pat
  {
    var t := s + pat;
    if j < |s| {
      assert t[..|pat|][j] == s[j];
    } else {
      var k := j - |s|;
      assert t[..|pat|][j] == pat[k];
      assert pat[..j][k] == pat[k];
    }
  }

  /** A path that os.path.join appends rather than restarting from. */
  predicate Relative(b: string) {
    |b| == 0 || b[0] != '/'
  }

  /** posixpath.join(a, b). */
  function Join(a: string, b: string): string
  {
    if !Relative(b) then b
    else if a == [] || a[|a| - 1] == '/' then a + b
    else a + "/" + b
  }

  /**
   * The joined path ends with the name; a relative name is appended to the
   * directory, with one '/' between them unless the directory ends in one.
   */
  lemma JoinShape(a: string, b: string)
    ensures EndsWith(Join(a, b), b)
    ensures Relative(b) ==> |a| <= |Join(a, b)| && Join(a, b)[..|a|] == a
    ensures Relative(b) && a != [] && a[|a| - 1] != '/' ==> Join(a, b)[|a|] == '/'
  {
  }

  /** Joining one directory with two different relative names gives two different paths. */
  lemma JoinInjective(d: string, b1: string, b2: string)
    requires Relative(b1) && Relative(b2)
    ensures Join(d, b1) == Join(d, b2) <==> b1 == b2
  {
    if Join(d, b1) == Join(d, b2) {
      var pre := if d == [] || d[|d| - 1] == '/' then d else d + "/";
      assert Join(d, b1) == pre + b1 && Join(d, b2) == pre + b2;
      assert b1 == (pre + b1)[|pre|..];
      assert b2 == (pre + b2)[|pre|..];
    }
  }

  /** posixpath.basename: the text after the last '/'. */
  function Basename(p: string): (r: string)
    ensures '/' !in r
    decreases |p|
  {
    if p == [] || p[|p| - 1] == '/' then []
    else Basename(p[..|p| - 1]) + [p[|p| - 1]]
  }

  lemma {:induction false} BasenameAfterSlash(a: string, b: string)
    requires '/' !in b
    requires a == [] || a[|a| - 1] == '/'
    ensures Basename(a + b) == b
    decreases |b|
  {
    if b == [] {
      assert a + b == a;
    } else {
      var n := |b| - 1;
      assert (a + b)[..|a + b| - 1] == a + b[..n];
      BasenameAfterSlash(a, b[..n]);
      assert b == b[..n] + [b[n]];
    }
  }

  /** os.path.basename(os.path.join(d, n)) == n for a plain file name n. */
  lemma BasenameOfJoin(d: string, n: string)
    requires '/' !in n
    ensures Basename(Join(d, n)) == n
  {
    if !Relative(n) {
    } else if d == [] || d[|d| - 1] == '/' {
      BasenameAfterSlash(d, n);
    } else {
      BasenameAfterSlash(d + "/", n);
    }
  }

  /** [f for f in names if f.endswith(suffix)] */
  function KeepEndingWith(names: seq<string>, suffix: string): (r: seq<string>)
    ensures forall k :: 0 <= k < |r| ==> EndsWith(r[k], suffix) && r[k] in names
    decreases |names|
  {
    if names == [] then []
    else (if EndsWith(names[0], suffix) then [names[0]] else []) + KeepEndingWith(names[1..], suffix)
  }

  /** Every matching name survives the filter. */
  lemma {:induction false} KeepEndingWithComplete(names: seq<string>, suffix: string, f: string)
    requires f in names && EndsWith(f, suffix)
    ensures f in KeepEndingWith(names, suffix)
    decreases |names|
  {
    if names[0] != f {
      KeepEndingWithComplete(names[1..], suffix, f);
    }
  }

  /** str.split(c) with a one-character separator. */
  function Split(s: string, c: char): (r: seq<string>)
    ensures |r| >= 1
    decreases |s|
  {
    if s == [] then [""]
    else if s[0] == c then [""] + Split(s[1..], c)
    else
      var rest := Split(s[1..], c);
      [[s[0]] + rest[0]] + rest[1..]
  }

  lemma {:induction false} SplitWithout(a: string, c: char)
    requires c !in a
    ensures Split(a, c) == [a]
    decreases |a|
  {
    if a != [] {
      SplitWithout(a[1..], c);
      assert a == [a[0]] + a[1..];
    }
  }

  /** Splitting at the first separator peels off the text before it. */
  lemma {:induction false} SplitFirst(a: string, c: char, b: string)
    requires c !in a
    ensures Split(a + [c] + b, c) == [a] + Split(b, c)
    decreases |a|
  {
    var t := a + [c] + b;
    if a == [] {
      assert t[1..] == b;
    } else {
      assert t[0] == a[0];
      assert t[1..] == a[1..] + [c] + b;
      SplitFirst(a[1..], c, b);
      assert a == [a[0]] + a[1..];
    }
  }
}
