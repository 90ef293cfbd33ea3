/**
  File names as the mover sees them: a gathered source file, the
  stem/suffix split of Python's `pathlib` (`PurePath.stem` and
  `PurePath.suffix`), the decimal rendering of a probe counter, and the
  collision candidate `"{stem} ({i}){suffix}"` built from them.
 */
module Names {

  /** One file found by the tree walk: the directory it was found in and
      its base name (the last path component). */
  datatype SourceFile = SourceFile(dir: string, name: string)

  /** Index of the last '.' in `s`, or -1 when `s` has none
      (Python's `str.rfind('.')`). */
  function LastDot(s: string): (r: int)
    ensures -1 <= r < |s|
    ensures r >= 0 ==> s[r] == '.'
    ensures forall k :: r < k < |s| ==> s[k] != '.'
    decreases |s|
  {
    if s == [] then -1
    else if s[|s| - 1] == '.' then |s| - 1
    else LastDot(s[..|s| - 1])
  }

  /** Appending text without a dot leaves the last dot where it was. */
  lemma {:induction false} LastDotSkips(s: string, t: string)
    requires forall k :: 0 <= k < |t| ==> t[k] != '.'
    ensures LastDot(s + t) == LastDot(s)
    decreases |t|
  {
    if t != [] {
      var t' := t[..|t| - 1];
      assert (s + t)[|s + t| - 1] == t[|t| - 1];
      assert (s + t)[..|s + t| - 1] == s + t';
      LastDotSkips(s, t');
    } else {
      assert s + t == s;
    }
  }

  /** `pathlib`'s suffix: the text from the last dot, but only when that
      dot is neither the first nor the last character of the name.
      So ".bashrc" and "notes." have no suffix, and "archive.tar.gz"
      has ".gz". */
  function Suffix(name: string): (r: string)
    ensures |r| <= |name| && r == name[|name| - |r|..]
    ensures r != [] ==> 2 <= |r| < |name| && r[0] == '.'
    ensures forall k :: 1 <= k < |r| ==> r[k] != '.'
    ensures r == [] <==>
      (|name| > 0 && name[|name| - 1] == '.') ||
      (forall k :: 0 < k < |name| - 1 ==> name[k] != '.')
  {
    var i := LastDot(name);
    if 0 < i < |name| - 1 then name[i..] else []
  }

  /** `pathlib`'s stem: the name with its suffix (if any) removed. */
  function Stem(name: string): (r: string)
    ensures r + Suffix(name) == name
  {
    var i := LastDot(name);
    if 0 < i < |name| - 1 then name[..i] else name
  }

  lemma SplitExamples()
    ensures Stem(".bashrc") == ".bashrc" && Suffix(".bashrc") == ""
    ensures Stem("archive.tar.gz") == "archive.tar" && Suffix("archive.tar.gz") == ".gz"
    ensures Stem("notes.") == "notes." && Suffix("notes.") == ""
    ensures Stem("README") == "README" && Suffix("README") == ""
  {
    LastDotSkips(".", "bashrc");
    assert "." + "bashrc" == ".bashrc";
    assert LastDot("archive.tar.gz") == 11;
    assert LastDot("README") == -1;
  }

  function DigitChar(d: nat): (c: char)
    requires d < 10
    ensures '0' <= c <= '9' && c as int - '0' as int == d
  {
    ('0' as int + d) as char
  }

  predicate AllDigits(s: string)
  {
    forall k :: 0 <= k < |s| ==> '0' <= s[k] <= '9'
  }

  /** Python's `f"{i}"` for a natural number: decimal digits, most
      significant first, without leading zeros. */
  function Decimal(n: nat): (s: string)
    ensures 1 <= |s| && AllDigits(s)
    ensures s[0] == '0' ==> n == 0
    decreases n
  {
    if n < 10 then [DigitChar(n)] else Decimal(n / 10) + [DigitChar(n % 10)]
  }

  /** The number a string of decimal digits denotes. */
  function DecimalValue(s: string): nat
    requires AllDigits(s)
    decreases |s|
  {
    if s == [] then 0
    else 10 * DecimalValue(s[..|s| - 1]) + (s[|s| - 1] as int - '0' as int)
  }

  lemma {:induction false} DecimalRoundTrip(n: nat)
    ensures DecimalValue(Decimal(n)) == n
    decreases n
  {
    if n >= 10 {
      DecimalRoundTrip(n / 10);
      var s := Decimal(n);
      assert s[..|s| - 1] == Decimal(n / 10);
    }
  }

  lemma DecimalInjective(m: nat, n: nat)
    ensures Decimal(m) == Decimal(n) <==> m == n
  {
    DecimalRoundTrip(m);
    DecimalRoundTrip(n);
  }

  /** The name probed for counter `i` (main.py:19). */
  function Candidate(stem: string, suffix: string, i: nat): string
  {
    stem + " (" + Decimal(i) + ")" + suffix
  }

  /** Different counters give different candidates. */
  lemma CandidateInjective(stem: string, suffix: string, i: nat, j: nat)
    ensures Candidate(stem, suffix, i) == Candidate(stem, suffix, j) <==> i == j
  {
    var ci, cj := Candidate(stem, suffix, i), Candidate(stem, suffix, j);
    var di, dj := Decimal(i), Decimal(j);
    if ci == cj {
      assert |di| == |dj|;
      var lo := |stem| + 2;
      assert ci[lo..lo + |di|] == di;
      assert cj[lo..lo + |dj|] == dj;
      DecimalInjective(i, j);
    }
  }

  /** A candidate built from a name's own stem and suffix is never that
      name: it is at least four characters longer. */
  lemma CandidateIsNotName(name: string, i: nat)
    ensures Candidate(Stem(name), Suffix(name), i) != name
    ensures |Candidate(Stem(name), Suffix(name), i)| >= |name| + 4
  {
  }
}
