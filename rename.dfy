/**
 * rename.py: strip the category prefix from every dataset file name, so that
 * "<category>_<i>_x.xyz" becomes "<i>_x.xyz", using
 * re.search(r"_(\d+(_[xy])?)\.(npy|xyz)", name) and
 * new_name = f"{match.group(1)}.{match.group(3)}".
 */
module Rename {
  import opened Wrappers
  import opened Text

  /** A match of the pattern: where it starts, group(1) and group(3). */
  datatype Match = Match(start: nat, body: string, ext: string)

  /** The language of group(1), \d+(_[xy])? */
  predicate BodyShape(b: string) {
    || (|b| >= 1 && AllDecimal(b))
    || (|b| >= 3 && AllDecimal(b[..|b| - 2]) && b[|b| - 2] == '_' && (b[|b| - 1] == 'x' || b[|b| - 1] == 'y'))
  }

  predicate ExtShape(e: string) {
    e == "npy" || e == "xyz"
  }

  /** The text a match covers. */
  function MatchText(m: Match): string {
    "_" + m.body + "." + m.ext
  }

  /** `m` is a match of the pattern in `s`: the pattern's language, occurring at m.start. */
  predicate IsMatch(s: string, m: Match) {
    BodyShape(m.body) && ExtShape(m.ext) && OccursAt(s, MatchText(m), m.start)
  }

  /** The length of the run of digits in `s` that starts at position p. */
  function DigitRun(s: string, p: nat): (n: nat)
    requires p <= |s|
    ensures p + n <= |s|
    decreases |s| - p
  {
    if p < |s| && IsDecimal(s[p]) then 1 + DigitRun(s, p + 1) else 0
  }

  /** The run is maximal: digits up to its end, and no digit right after it. */
  lemma {:induction false} DigitRunSpans(s: string, p: nat)
    requires p <= |s|
    ensures forall k :: p <= k < p + DigitRun(s, p) ==> IsDecimal(s[k])
    ensures p + DigitRun(s, p) < |s| ==> !IsDecimal(s[p + DigitRun(s, p)])
    decreases |s| - p
  {
    if p < |s| && IsDecimal(s[p]) {
      DigitRunSpans(s, p + 1);
    }
  }

  /** (_[xy]) matches at position e. */
  predicate OptAt(s: string, e: nat) {
    e + 1 < |s| && s[e] == '_' && (s[e + 1] == 'x' || s[e + 1] == 'y')
  }

  /** \.(npy|xyz) at position dot, giving group(3). */
  function ExtAt(s: string, dot: nat): Option<string> {
    if !(dot + 4 <= |s| && s[dot] == '.') then None
    else if s[dot + 1] == 'n' && s[dot + 2] == 'p' && s[dot + 3] == 'y' then Some("npy")
    else if s[dot + 1] == 'x' && s[dot + 2] == 'y' && s[dot + 3] == 'z' then Some("xyz")
    else None
  }

  /** What ExtAt reads is "." and one of the two extensions, at dot. */
  lemma ExtAtSound(s: string, dot: nat)
    requires ExtAt(s, dot).Some?
    ensures ExtShape(ExtAt(s, dot).value) && OccursAt(s, "." + ExtAt(s, dot).value, dot)
  {
    var w := s[dot..dot + 4];
    assert w[0] == s[dot] && w[1] == s[dot + 1] && w[2] == s[dot + 2] && w[3] == s[dot + 3];
    assert w == "." + ExtAt(s, dot).value;
  }

  /**
   * The regex engine's attempt at position p: '_', the greedy digit run,
   * the optional _x/_y, then .npy or .xyz. Backtracking finds nothing else:
   * a shorter digit run leaves a digit where '_' or '.' is needed, and
   * dropping the optional group leaves '_' where '.' is needed.
   */
  function MatchAt(s: string, p: nat): Option<Match> {
    if !(p < |s| && s[p] == '_') then None
    else
      var e := p + 1 + DigitRun(s, p + 1);
      var dot := if OptAt(s, e) then e + 2 else e;
      if e == p + 1 || ExtAt(s, dot).None? then None
      else Some(Match(p, s[p + 1..dot], ExtAt(s, dot).value))
  }

  /** What the engine finds at p is a match of the pattern starting at p. */
  lemma MatchAtSound(s: string, p: nat)
    requires MatchAt(s, p).Some?
    ensures IsMatch(s, MatchAt(s, p).value) && MatchAt(s, p).value.start == p
  {
    var e := p + 1 + DigitRun(s, p + 1);
    var dot := if OptAt(s, e) then e + 2 else e;
    var ext := ExtAt(s, dot).value;
    ExtAtSound(s, dot);
    assert MatchAt(s, p).value == Match(p, s[p + 1..dot], ext);
    DigitRunSpans(s, p + 1);
    SoundBody(s, p + 1, e, dot);
    SoundText(s, p, dot, ext);
  }

  /** The greedy digit run and the optional _x/_y form a body of the right shape. */
  lemma SoundBody(s: string, q: nat, e: nat, dot: nat)
    requires q < e <= |s| && forall k :: q <= k < e ==> IsDecimal(s[k])
    requires dot == if OptAt(s, e) then e + 2 else e
    ensures dot <= |s| && BodyShape(s[q..dot])
  {
    var b := s[q..dot];
    var d := b[..e - q];
    assert forall k :: 0 <= k < |d| ==> d[k] == s[q + k];
    assert AllDecimal(d);
    if OptAt(s, e) {
      assert b[..|b| - 2] == d;
      assert b[|b| - 2] == s[e] && b[|b| - 1] == s[e + 1];
    } else {
      assert b == d;
    }
  }

  /** '_', the body and "." + ext, read off the name from p on. */
  lemma SoundText(s: string, p: nat, dot: nat, ext: string)
    requires OccursAt(s, "." + ext, dot) && p < dot && s[p] == '_'
    ensures OccursAt(s, "_" + s[p + 1..dot] + "." + ext, p)
  {
    var t := "_" + s[p + 1..dot] + "." + ext;
    assert s[p..dot + 1 + |ext|] == [s[p]] + s[p + 1..dot] + s[dot..dot + 1 + |ext|];
    assert |t| == dot + 1 + |ext| - p;
  }

  /** Any match of the pattern at p is the one the engine finds there: matches are unique per position. */
  lemma MatchAtComplete(s: string, m: Match)
    requires IsMatch(s, m)
    ensures MatchAt(s, m.start) == Some(m)
  {
    MatchTextAt(s, m);
    var e := MatchDigitRun(s, m);
    ExtAtIs(s, m.start + 1 + |m.body|, m.ext);
    MatchAtIs(s, m.start, e, m.start + 1 + |m.body|, m.ext);
  }

  /**
   * In a match, the engine's greedy digit run ends where the body's digits
   * end, and the optional _x/_y takes it to the body's end.
   */
  lemma MatchDigitRun(s: string, m: Match) returns (e: nat)
    requires IsMatch(s, m)
    ensures m.start < |s| && s[m.start] == '_'
    ensures e == m.start + 1 + DigitRun(s, m.start + 1) && e > m.start + 1
    ensures (if OptAt(s, e) then e + 2 else e) == m.start + 1 + |m.body|
  {
    var p, b := m.start, m.body;
    MatchTextAt(s, m);
    var digits := BodyDigits(b);
    e := p + 1 + digits;
    forall k | p + 1 <= k < e ensures IsDecimal(s[k]) {
      assert s[k] == b[k - p - 1] == b[..digits][k - p - 1];
    }
    if digits == |b| {
      assert !OptAt(s, e);
    } else {
      assert s[e] == b[digits] && s[e + 1] == b[digits + 1];
    }
    DigitRunIs(s, p + 1, digits);
  }

  /** MatchAt evaluated from the positions of its digit run, its dot and its extension. */
  lemma MatchAtIs(s: string, p: nat, e: nat, dot: nat, ext: string)
    requires p < |s| && s[p] == '_' && e == p + 1 + DigitRun(s, p + 1) && e > p + 1
    requires dot == (if OptAt(s, e) then e + 2 else e)
    requires ExtAt(s, dot) == Some(ext)
    ensures MatchAt(s, p) == Some(Match(p, s[p + 1..dot], ext))
  {
    var e0 := p + 1 + DigitRun(s, p + 1);
    var dot0 := if OptAt(s, e0) then e0 + 2 else e0;
    assert e0 == e && dot0 == dot;
    assert MatchAt(s, p) == if e0 == p + 1 || ExtAt(s, dot0).None? then None
      else Some(Match(p, s[p + 1..dot0], ExtAt(s, dot0).value));
  }

  lemma ExtAtIs(s: string, dot: nat, ext: string)
    requires ExtShape(ext) && dot + 4 <= |s| && s[dot..dot + 4] == "." + ext
    ensures ExtAt(s, dot) == Some(ext)
  {
    var w := s[dot..dot + 4];
    assert s[dot] == w[0] && s[dot + 1] == w[1] && s[dot + 2] == w[2] && s[dot + 3] == w[3];
  }

  /** The length of the digit run group(1) starts with. */
  lemma BodyDigits(b: string) returns (digits: nat)
    requires BodyShape(b)
    ensures 1 <= digits <= |b| && AllDecimal(b[..digits])
    ensures digits == |b| || (digits + 2 == |b| && b[digits] == '_' && (b[digits + 1] == 'x' || b[digits + 1] == 'y'))
  {
    if |b| >= 1 && AllDecimal(b) {
      digits := |b|;
      assert b[..digits] == b;
    } else {
      digits := |b| - 2;
    }
  }

  /** The characters of a match, read off the name. */
  lemma MatchTextAt(s: string, m: Match)
    requires ExtShape(m.ext) && OccursAt(s, MatchText(m), m.start)
    ensures m.start + |m.body| + 4 < |s| + 1
    ensures s[m.start] == '_'
    ensures forall k :: 0 <= k < |m.body| ==> s[m.start + 1 + k] == m.body[k]
    ensures s[m.start + 1..m.start + 1 + |m.body|] == m.body
    ensures s[m.start + 1 + |m.body|] == '.'
    ensures s[m.start + 1 + |m.body|..m.start + 5 + |m.body|] == "." + m.ext
    ensures m.start + 5 + |m.body| <= |s|
  {
    var p, b, e := m.start, m.body, m.ext;
    MatchTextParts(s, m);
    assert s[p] == s[p..p + 1][0];
    forall k | 0 <= k < |b| ensures s[p + 1 + k] == b[k] {
      assert s[p + 1 + k] == s[p + 1..p + 1 + |b|][k];
    }
    assert s[p + 1 + |b|] == s[p + 1 + |b|..p + 2 + |b|][0];
  }

  /** The three pieces of a match occur one after the other. */
  lemma MatchTextParts(s: string, m: Match)
    requires ExtShape(m.ext) && OccursAt(s, MatchText(m), m.start)
    ensures OccursAt(s, "_", m.start) && OccursAt(s, m.body, m.start + 1)
    ensures OccursAt(s, "." + m.ext, m.start + 1 + |m.body|) && |m.ext| == 3
  {
    var p, b, e := m.start, m.body, m.ext;
    OccursAtParts(s, p, "_" + b + ".", e);
    OccursAtParts(s, p, "_" + b, ".");
    OccursAtParts(s, p, "_", b);
    OccursAtJoin(s, p + 1 + |b|, ".", e);
  }

  /** An occurrence of a followed by one of b is an occurrence of a + b. */
  lemma OccursAtJoin(s: string, p: nat, a: string, b: string)
    requires OccursAt(s, a, p) && OccursAt(s, b, p + |a|)
    ensures OccursAt(s, a + b, p)
  {
    assert s[p..p + |a| + |b|] == s[p..p + |a|] + s[p + |a|..p + |a| + |b|];
  }

  /** An occurrence of a + b is an occurrence of a followed by one of b. */
  lemma OccursAtParts(s: string, p: nat, a: string, b: string)
    requires OccursAt(s, a + b, p)
    ensures OccursAt(s, a, p) && OccursAt(s, b, p + |a|)
  {
    var w := s[p..p + |a| + |b|];
    assert w == a + b;
    assert s[p..p + |a|] == w[..|a|];
    assert s[p + |a|..p + |a| + |b|] == w[|a|..];
  }

  /** The digit run at p has length n when n digits are followed by a non-digit. */
  lemma {:induction false} DigitRunIs(s: string, p: nat, n: nat)
    requires p + n < |s|
    requires forall k :: p <= k < p + n ==> IsDecimal(s[k])
    requires !IsDecimal(s[p + n])
    ensures DigitRun(s, p) == n
    decreases n
  {
    if n > 0 {
      DigitRunIs(s, p + 1, n - 1);
    }
  }

  /** re.search: try the pattern at each position in turn, leftmost first. */
  function SearchFrom(s: string, p: nat): (r: Option<Match>)
    ensures r.Some? ==> p <= r.value.start && MatchAt(s, r.value.start) == r
    ensures r.Some? ==> forall q :: p <= q < r.value.start ==> MatchAt(s, q).None?
    ensures r.None? ==> forall q :: p <= q < |s| ==> MatchAt(s, q).None?
    decreases |s| - p
  {
    if p >= |s| then None
    else if MatchAt(s, p).Some? then MatchAt(s, p)
    else SearchFrom(s, p + 1)
  }

  /** re.search: the engine's match at the first position where it finds one. */
  function Search(s: string): (r: Option<Match>)
    ensures r.Some? ==> MatchAt(s, r.value.start) == r && forall q: nat :: q < r.value.start ==> MatchAt(s, q).None?
    ensures r.None? ==> forall q: nat :: q < |s| ==> MatchAt(s, q).None?
  {
    SearchFrom(s, 0)
  }

  lemma {:induction false} SearchFromLeftmost(s: string, p: nat)
    ensures SearchFrom(s, p).Some? ==>
      && IsMatch(s, SearchFrom(s, p).value)
      && p <= SearchFrom(s, p).value.start
      && forall m :: IsMatch(s, m) && p <= m.start ==> SearchFrom(s, p).value.start <= m.start
    ensures SearchFrom(s, p).None? ==> forall m :: IsMatch(s, m) ==> m.start < p
    decreases |s| - p
  {
    if p >= |s| {
      forall m | IsMatch(s, m) ensures m.start < p {
        MatchTextAt(s, m);
      }
    } else if MatchAt(s, p).Some? {
      MatchAtSound(s, p);
    } else {
      SearchFromLeftmost(s, p + 1);
      forall m | IsMatch(s, m) && m.start == p ensures false {
        MatchAtComplete(s, m);
      }
    }
  }

  /**
   * re.search finds a match exactly when the pattern occurs, and what it
   * finds is the leftmost occurrence.
   */
  lemma SearchLeftmost(s: string)
    ensures Search(s).Some? ==>
      && IsMatch(s, Search(s).value)
      && forall m :: IsMatch(s, m) ==> Search(s).value.start <= m.start
    ensures Search(s).None? <==> forall m :: !IsMatch(s, m)
  {
    SearchFromLeftmost(s, 0);
  }

  /** A match that starts no later than every other one is what re.search returns. */
  lemma SearchFindsLeftmost(s: string, m: Match)
    requires IsMatch(s, m)
    requires forall m' :: IsMatch(s, m') ==> m.start <= m'.start
    ensures Search(s) == Some(m)
  {
    SearchLeftmost(s);
    var v := Search(s).value;
    assert v.start == m.start;
    MatchAtComplete(s, v);
    MatchAtComplete(s, m);
    assert Some(v) == MatchAt(s, m.start) == Some(m);
  }

  /** f"{match.group(1)}.{match.group(3)}" */
  function NewName(m: Match): string {
    m.body + "." + m.ext
  }

  /** The per-file step of remove_prefix_from_files: the new name, or None when the file is left alone. */
  function RenameTarget(file: string): Option<string> {
    if !(EndsWith(file, ".npy") || EndsWith(file, ".xyz")) then None
    else match Search(file)
      case None => None
      case Some(m) => Some(NewName(m))
  }

  /**
   * A .npy/.xyz file is renamed exactly when the pattern occurs in its name;
   * the new name is the text of the leftmost match after its '_', so it
   * keeps the extension that appeared in the match.
   */
  lemma RenameTargetSpec(file: string)
    ensures RenameTarget(file).Some? <==>
      (EndsWith(file, ".npy") || EndsWith(file, ".xyz")) && exists m :: IsMatch(file, m)
    ensures RenameTarget(file).Some? ==>
      var m := Search(file).value;
      && IsMatch(file, m)
      && (forall m' :: IsMatch(file, m') ==> m.start <= m'.start)
      && "_" + RenameTarget(file).value == MatchText(m)
      && OccursAt(file, "_" + RenameTarget(file).value, m.start)
      && EndsWith(RenameTarget(file).value, "." + m.ext)
  {
    SearchLeftmost(file);
    if RenameTarget(file).Some? {
      var m := Search(file).value;
      assert "_" + NewName(m) == MatchText(m);
    }
  }

  /**
   * \d is not only ASCII: "a_\U{0663}.npy", with U+0663 ARABIC-INDIC DIGIT
   * THREE, is renamed to "\U{0663}.npy".
   */
  lemma RenameArabicIndicDigit()
    ensures RenameTarget("a_\U{0663}.npy") == Some("\U{0663}.npy")
  {
    var s := "a_\U{0663}.npy";
    assert s[1] == '_' && s[2] == '\U{0663}' && s[3] == '.';
    assert BmpDecimalZeros[0] == 0x660;
    assert IsDecimal(s[2]) && !IsDecimal(s[3]);
    DigitRunIs(s, 2, 1);
    assert !OptAt(s, 3);
    ExtAtIs(s, 3, "npy");
    MatchAtIs(s, 1, 3, 3, "npy");
    assert s[2..3] == "\U{0663}";
    assert MatchAt(s, 0) == None;
    assert Search(s) == Some(Match(1, "\U{0663}", "npy"));
    assert EndsWith(s, ".npy");
    assert NewName(Match(1, "\U{0663}", "npy")) == "\U{0663}.npy";
  }

  /**
   * The leftmost match decides the extension of the new name, not the end
   * of the file name: "a_1.npy.xyz" is renamed to "1.npy".
   */
  lemma RenameMixedExtension()
    ensures RenameTarget("a_1.npy.xyz") == Some("1.npy")
  {
    var s := "a_1.npy.xyz";
    MixedExtensionSearch();
    assert s[7..] == ".xyz";
    assert NewName(Match(1, "1", "npy")) == "1.npy";
  }

  /** re.search finds "_1.npy" in "a_1.npy.xyz". */
  lemma MixedExtensionSearch()
    ensures Search("a_1.npy.xyz") == Some(Match(1, "1", "npy"))
  {
    var s := "a_1.npy.xyz";
    assert s[1] == '_' && s[2] == '1' && s[3] == '.';
    assert s[3..7] == ".npy";
    assert IsDecimal(s[2]) && !IsDecimal(s[3]);
    DigitRunIs(s, 2, 1);
    assert !OptAt(s, 3);
    ExtAtIs(s, 3, "npy");
    MatchAtIs(s, 1, 3, 3, "npy");
    assert s[2..3] == "1";
    assert MatchAt(s, 0) == None;
  }

  /** The shape of a match, as characters of the name it occurs in. */
  lemma MatchChars(s: string, m: Match) returns (digits: nat)
    requires IsMatch(s, m)
    ensures 1 <= digits <= |m.body| && m.start + 5 + |m.body| <= |s|
    ensures s[m.start] == '_' && IsDecimal(s[m.start + 1])
    ensures forall k :: m.start < k <= m.start + digits ==> IsDecimal(s[k])
    ensures digits == |m.body| || (digits + 2 == |m.body| && s[m.start + 1 + digits] == '_'
      && (s[m.start + 2 + digits] == 'x' || s[m.start + 2 + digits] == 'y'))
    ensures s[m.start + 1 + |m.body|] == '.'
  {
    MatchTextAt(s, m);
    digits := BodyDigits(m.body);
    forall k | m.start < k <= m.start + digits ensures IsDecimal(s[k]) {
      assert s[k] == m.body[k - m.start - 1] == m.body[..digits][k - m.start - 1];
    }
  }

  /** No '_' in `s` is followed by a digit, so the pattern cannot occur in it. */
  lemma NoMatchWithoutUnderscoreDigit(s: string)
    requires forall q :: 0 <= q < |s| - 1 && s[q] == '_' ==> !IsDecimal(s[q + 1])
    ensures forall m :: !IsMatch(s, m)
  {
    forall m | IsMatch(s, m) ensures false {
      var _ := MatchChars(s, m);
    }
  }

  /**
   * Idempotence: a name the rename produced no longer holds the pattern,
   * so a second run leaves it alone.
   */
  lemma RenameIdempotent(file: string)
    requires RenameTarget(file).Some?
    ensures RenameTarget(RenameTarget(file).value) == None
  {
    SearchLeftmost(file);
    var m := Search(file).value;
    var g := NewName(m);
    var digits := BodyDigits(m.body);
    forall q | 0 <= q < |g| - 1 && g[q] == '_' ensures !IsDecimal(g[q + 1]) {
      if q >= digits {
        assert q == digits;
        assert g[q + 1] == m.body[digits + 1];
      }
    }
    NoMatchWithoutUnderscoreDigit(g);
    SearchLeftmost(g);
  }

  /** The three tails data_augmentation.py puts after f"{category_name}_{i}". */
  predicate GeneratedSuffix(sfx: string) {
    sfx == "_x.xyz" || sfx == "_y.xyz" || sfx == ".npy"
  }

  /** The characters of a generated name around its category, its digits and its only '.'. */
  lemma GeneratedChars(cat: string, n: string, sfx: string)
    requires '.' !in cat && AllDecimal(n) && |n| >= 1 && GeneratedSuffix(sfx)
    ensures var s := cat + "_" + n + sfx;
      && s[|cat|] == '_'
      && (forall k :: |cat| < k <= |cat| + |n| ==> IsDecimal(s[k]))
      && (forall k :: 0 <= k < |s| && s[k] == '.' ==> k == |cat| + 1 + |n| + |sfx| - 4)
      && s[|cat| + |n| + |sfx| - 4] == (if sfx == ".npy" then n[|n| - 1] else sfx[1])
  {
    var s := cat + "_" + n + sfx;
    forall k | |cat| < k <= |cat| + |n| ensures IsDecimal(s[k]) {
      assert s[k] == n[k - |cat| - 1];
    }
    forall k | 0 <= k < |cat| ensures s[k] == cat[k] && s[k] != '.' {
      assert cat[k] in cat;
    }
    forall k | |cat| + |n| < k < |s| ensures s[k] == sfx[k - |cat| - 1 - |n|] {
    }
  }

  /**
   * For a category with no '.', no match in f"{category}_{i}{sfx}" starts
   * inside the category: the only '.' sits after the index, and the digit
   * run before it cannot reach back past the '_' that ends the category.
   */
  lemma GeneratedMatchStart(cat: string, n: string, sfx: string, m: Match)
    requires '.' !in cat && |n| >= 1 && AllDecimal(n) && GeneratedSuffix(sfx)
    requires IsMatch(cat + "_" + n + sfx, m)
    ensures |cat| <= m.start
  {
    var digits := MatchChars(cat + "_" + n + sfx, m);
    GeneratedChars(cat, n, sfx);
  }

  /** The match that starts at the '_' after the category. */
  lemma GeneratedMatch(cat: string, n: string, sfx: string) returns (m: Match)
    requires |n| >= 1 && AllDecimal(n) && GeneratedSuffix(sfx)
    ensures IsMatch(cat + "_" + n + sfx, m) && m.start == |cat| && NewName(m) == n + sfx
    ensures EndsWith(cat + "_" + n + sfx, "." + m.ext)
  {
    var opt := sfx[..|sfx| - 4];
    var ext := sfx[|sfx| - 3..];
    GeneratedBody(n, sfx);
    var body := n + opt;
    assert cat + "_" + n + sfx == cat + ("_" + body + "." + ext);
    assert n + sfx == body + "." + ext;
    TailMatch(cat, body, ext);
    m := Match(|cat|, body, ext);
  }

  /** After any prefix, "_" + body + "." + ext is a match that ends the name. */
  lemma TailMatch(pre: string, body: string, ext: string)
    requires BodyShape(body) && ExtShape(ext)
    ensures IsMatch(pre + ("_" + body + "." + ext), Match(|pre|, body, ext))
    ensures EndsWith(pre + ("_" + body + "." + ext), "." + ext)
  {
    var t := "_" + body + "." + ext;
    var s := pre + t;
    assert s[|pre|..|pre| + |t|] == t;
    assert t == ("_" + body) + ("." + ext);
    assert s[|s| - |"." + ext|..] == "." + ext;
  }

  /** group(1) and group(3) of the generated tail f"_{i}{sfx}". */
  lemma GeneratedBody(n: string, sfx: string)
    requires |n| >= 1 && AllDecimal(n) && GeneratedSuffix(sfx)
    ensures BodyShape(n + sfx[..|sfx| - 4]) && ExtShape(sfx[|sfx| - 3..])
    ensures sfx == sfx[..|sfx| - 4] + "." + sfx[|sfx| - 3..]
  {
    var opt := sfx[..|sfx| - 4];
    if sfx == ".npy" {
      assert opt == [];
      assert n + opt == n;
    } else {
      assert opt == sfx[..2];
      assert (n + opt)[..|n + opt| - 2] == n;
    }
  }

  /**
   * For a category with no '.', renaming f"{category}_{i}_x.xyz",
   * f"{category}_{i}_y.xyz" or f"{category}_{i}.npy" drops exactly
   * f"{category}_".
   */
  lemma RenameGeneratedName(cat: string, i: nat, sfx: string)
    requires '.' !in cat && GeneratedSuffix(sfx)
    ensures RenameTarget(cat + "_" + NatToString(i) + sfx) == Some(NatToString(i) + sfx)
  {
    var n := NatToString(i);
    DigitsAreDecimal(n);
    var s := cat + "_" + n + sfx;
    var m := GeneratedMatch(cat, n, sfx);
    forall m' | IsMatch(s, m') ensures m.start <= m'.start {
      GeneratedMatchStart(cat, n, sfx, m');
    }
    assert EndsWith(s, ".npy") || EndsWith(s, ".xyz") by {
      assert ExtShape(m.ext);
    }
    RenameToLeftmost(s, m);
  }

  /**
   * A .npy/.xyz name is renamed by its leftmost match, whatever extension
   * that match holds: "a_1.npy.xyz" becomes "1.npy".
   */
  lemma RenameToLeftmost(s: string, m: Match)
    requires EndsWith(s, ".npy") || EndsWith(s, ".xyz")
    requires IsMatch(s, m)
    requires forall m' :: IsMatch(s, m') ==> m.start <= m'.start
    ensures RenameTarget(s) == Some(NewName(m))
  {
    SearchFindsLeftmost(s, m);
  }

  /** One entry of os.listdir(base_dir), with what the walk asks the file system about it. */
  datatype CategoryEntry = CategoryEntry(
    name: string,
    isDir: bool,                         // os.path.isdir(category_path)
    subsets: map<string, seq<string>>)   // the listings of the sub-paths that exist

  /** One os.rename(old_path, new_path) call; both paths lie in `dir`. */
  datatype RenameOp = RenameOp(dir: string, oldName: string, newName: string)

  /** The subfolders the walk visits, in order. */
  const Subsets: seq<string> := ["train", "test"]

  /** The renames for one listing, in listing order. */
  function ListingRenames(dir: string, files: seq<string>): seq<RenameOp>
    decreases |files|
  {
    if files == [] then []
    else
      var last := files[|files| - 1];
      ListingRenames(dir, files[..|files| - 1])
        + (if RenameTarget(last).Some? then [RenameOp(dir, last, RenameTarget(last).value)] else [])
  }

  /** The renames inside the first `n` subset folders of one category. */
  function SubsetRenames(base: string, c: CategoryEntry, n: nat): seq<RenameOp>
    requires n <= |Subsets|
  {
    if n == 0 || !c.isDir then []
    else
      var s := Subsets[n - 1];
      SubsetRenames(base, c, n - 1)
        + (if s in c.subsets then ListingRenames(Join(Join(base, c.name), s), c.subsets[s]) else [])
  }

  /** The renames remove_prefix_from_files performs, in order. */
  function RenamePlan(base: string, cats: seq<CategoryEntry>): seq<RenameOp>
    decreases |cats|
  {
    if cats == [] then []
    else RenamePlan(base, cats[..|cats| - 1]) + SubsetRenames(base, cats[|cats| - 1], |Subsets|)
  }

  /**
   * remove_prefix_from_files: for each category directory, for its train and
   * test folders when they exist, rename every .npy / .xyz file whose name
   * matches. Returns the os.rename calls made, in order.
   */
  method RemovePrefixFromFiles(base: string, cats: seq<CategoryEntry>) returns (ops: seq<RenameOp>)
    ensures ops == RenamePlan(base, cats)
  {
    ops := [];
    for i := 0 to |cats|
      invariant ops == RenamePlan(base, cats[..i])
    {
      var category := cats[i];
      assert cats[..i + 1][..i] == cats[..i];
      var categoryPath := Join(base, category.name);
      if category.isDir {
        for j := 0 to |Subsets|
          invariant ops == RenamePlan(base, cats[..i]) + SubsetRenames(base, category, j)
        {
          var subset := Subsets[j];
          var subsetPath := Join(categoryPath, subset);
          if subset in category.subsets {
            var renamed := RenameFolder(subsetPath, category.subsets[subset]);
            ops := ops + renamed;
          }
        }
      }
    }
    assert cats[..|cats|] == cats;
  }

  /** The innermost loop of remove_prefix_from_files: one subset folder's listing, in order. */
  method RenameFolder(subsetPath: string, files: seq<string>) returns (ops: seq<RenameOp>)
    ensures ops == ListingRenames(subsetPath, files)
  {
    ops := [];
    for k := 0 to |files|
      invariant ops == ListingRenames(subsetPath, files[..k])
    {
      var file := files[k];
      assert files[..k + 1][..k] == files[..k];
      if EndsWith(file, ".npy") || EndsWith(file, ".xyz") {
        var m := Search(file);
        if m.Some? {
          var newName := m.value.body + "." + m.value.ext;
          ops := ops + [RenameOp(subsetPath, file, newName)];
        }
      }
    }
    assert files[..|files|] == files;
  }

  /** A listing yields one rename per file that is renamed, and no other. */
  lemma {:induction false} ListingRenamesSpec(dir: string, files: seq<string>, op: RenameOp)
    ensures op in ListingRenames(dir, files) <==>
      op.dir == dir && op.oldName in files && RenameTarget(op.oldName) == Some(op.newName)
    decreases |files|
  {
    if files != [] {
      var init := files[..|files| - 1];
      ListingRenamesSpec(dir, init, op);
      assert files == init + [files[|files| - 1]];
    }
  }

  /** The walk renames exactly the matching .npy / .xyz files of the train and test folders of category directories. */
  lemma RenamePlanSpec(base: string, cats: seq<CategoryEntry>, op: RenameOp)
    ensures op in RenamePlan(base, cats) <==>
      exists k, j :: 0 <= k < |cats| && 0 <= j < |Subsets| && InVisitedFolder(base, cats[k], Subsets[j], op)
  {
    RenamePlanCategories(base, cats, op);
    forall k | 0 <= k < |cats| {
      SubsetRenamesSpec(base, cats[k], op);
    }
  }

  /** `op` renames a file of subset folder `s` of category `c`, as the per-file step says. */
  predicate InVisitedFolder(base: string, c: CategoryEntry, s: string, op: RenameOp) {
    && c.isDir
    && s in c.subsets
    && op.dir == Join(Join(base, c.name), s)
    && op.oldName in c.subsets[s]
    && RenameTarget(op.oldName) == Some(op.newName)
  }

  lemma {:induction false} RenamePlanCategories(base: string, cats: seq<CategoryEntry>, op: RenameOp)
    ensures op in RenamePlan(base, cats) <==>
      exists k :: 0 <= k < |cats| && op in SubsetRenames(base, cats[k], |Subsets|)
    decreases |cats|
  {
    if cats != [] {
      var init, last := cats[..|cats| - 1], cats[|cats| - 1];
      RenamePlanCategories(base, init, op);
      assert RenamePlan(base, cats) == RenamePlan(base, init) + SubsetRenames(base, last, |Subsets|);
      if op in RenamePlan(base, init) {
        var k :| 0 <= k < |init| && op in SubsetRenames(base, init[k], |Subsets|);
        assert cats[k] == init[k];
      }
      forall k | 0 <= k < |cats| && op in SubsetRenames(base, cats[k], |Subsets|)
        ensures op in RenamePlan(base, cats)
      {
        if k < |init| {
          assert cats[k] == init[k];
        }
      }
    }
  }

  lemma SubsetRenamesSpec(base: string, c: CategoryEntry, op: RenameOp)
    ensures op in SubsetRenames(base, c, |Subsets|) <==>
      exists j :: 0 <= j < |Subsets| && InVisitedFolder(base, c, Subsets[j], op)
  {
    forall j | 0 <= j < |Subsets| && Subsets[j] in c.subsets {
      ListingRenamesSpec(Join(Join(base, c.name), Subsets[j]), c.subsets[Subsets[j]], op);
    }
    assert SubsetRenames(base, c, 1) == SubsetRenames(base, c, 0)
      + (if c.isDir && Subsets[0] in c.subsets then ListingRenames(Join(Join(base, c.name), Subsets[0]), c.subsets[Subsets[0]]) else []);
  }

  /** The name a file has after the walk: renamed, or left alone. */
  function RenameOnce(file: string): string {
    match RenameTarget(file)
    case Some(g) => g
    case None => file
  }

  /** The listing after the walk (os.rename collisions aside). */
  function AfterRename(cats: seq<CategoryEntry>): (r: seq<CategoryEntry>)
    ensures |r| == |cats|
  {
    seq(|cats|, k requires 0 <= k < |cats| => RenamedEntry(cats[k]))
  }

  function RenamedEntry(c: CategoryEntry): CategoryEntry {
    if !c.isDir then c
    else c.(subsets := map s | s in c.subsets ::
      if s in Subsets then seq(|c.subsets[s]|, k requires 0 <= k < |c.subsets[s]| => RenameOnce(c.subsets[s][k]))
      else c.subsets[s])
  }

  /** Running the walk a second time renames nothing. */
  lemma {:induction false} SecondRunRenamesNothing(base: string, cats: seq<CategoryEntry>)
    ensures RenamePlan(base, AfterRename(cats)) == []
    decreases |cats|
  {
    if cats != [] {
      var init := cats[..|cats| - 1];
      var last := cats[|cats| - 1];
      SecondRunRenamesNothing(base, init);
      assert AfterRename(cats)[..|cats| - 1] == AfterRename(init);
      var c := RenamedEntry(last);
      forall j | 0 <= j < |Subsets| && c.isDir && Subsets[j] in c.subsets
        ensures ListingRenames(Join(Join(base, c.name), Subsets[j]), c.subsets[Subsets[j]]) == []
      {
        var files := last.subsets[Subsets[j]];
        forall k | 0 <= k < |files| ensures RenameTarget(c.subsets[Subsets[j]][k]).None? {
          RenameOnceFinal(files[k]);
        }
        NothingToRename(Join(Join(base, c.name), Subsets[j]), c.subsets[Subsets[j]]);
      }
      assert SubsetRenames(base, c, 1) == [];
    }
  }

  /** A listing in which no name matches produces no rename. */
  lemma {:induction false} NothingToRename(dir: string, files: seq<string>)
    requires forall k :: 0 <= k < |files| ==> RenameTarget(files[k]).None?
    ensures ListingRenames(dir, files) == []
    decreases |files|
  {
    if files != [] {
      NothingToRename(dir, files[..|files| - 1]);
    }
  }

  /** A name that went through the walk is not renamed again. */
  lemma RenameOnceFinal(file: string)
    ensures RenameTarget(RenameOnce(file)) == None
  {
    if RenameTarget(file).Some? {
      RenameIdempotent(file);
    }
  }
}
