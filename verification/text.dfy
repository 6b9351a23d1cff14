/** Character classes and edge-whitespace trimming over `string` (= `seq<char>`),
    the vocabulary shared by the attribute matcher and the docstring locator. */
module Text {

  /** The ASCII characters Python's `str.isspace()` accepts, and so the ones
      `str.strip()` removes: the space, tab, line feed, vertical tab, form
      feed and carriage return (code points 9 to 13), and the file, group,
      record and unit separators (code points 28 to 31). */
  predicate IsBlank(c: char) {
    c == ' ' || '\t' <= c <= '\r' || '\U{1c}' <= c <= '\U{1f}'
  }

  predicate IsLetter(c: char) {
    ('a' <= c <= 'z') || ('A' <= c <= 'Z')
  }

  predicate IsDigit(c: char) {
    '0' <= c <= '9'
  }

  /** Letters, digits and underscore: the characters of an identifier. */
  predicate IsIdentChar(c: char) {
    IsLetter(c) || IsDigit(c) || c == '_'
  }

  predicate AllBlank(s: string) {
    forall i :: 0 <= i < |s| ==> IsBlank(s[i])
  }

  predicate AllIdentChars(s: string) {
    forall i :: 0 <= i < |s| ==> IsIdentChar(s[i])
  }

  /** A (non-empty) identifier that does not start with a digit. */
  predicate IsIdentifier(s: string) {
    |s| > 0 && !IsDigit(s[0]) && AllIdentChars(s)
  }

  /** Neither edge of `s` is whitespace. */
  predicate IsTrimmed(s: string) {
    |s| == 0 || (!IsBlank(s[0]) && !IsBlank(s[|s| - 1]))
  }

  /** `r` is `s` with whitespace runs, and nothing else, removed at both edges. */
  ghost predicate BlankBordered(s: string, r: string) {
    exists a, b :: AllBlank(a) && AllBlank(b) && s == a + r + b
  }

  /** The character classes the scanners below skip over. */
  datatype CharClass = Blanks | IdentChars | Except(c: char)

  predicate InClass(c: char, k: CharClass) {
    match k
    case Blanks => IsBlank(c)
    case IdentChars => IsIdentChar(c)
    case Except(d) => c != d
  }

  /** End of the run of class-`k` characters that starts at index `i` of `s`. */
  function RunEnd(s: string, i: nat, k: CharClass): (j: nat)
    requires i <= |s|
    ensures i <= j <= |s|
    ensures forall p :: i <= p < j ==> InClass(s[p], k)
    ensures j == |s| || !InClass(s[j], k)
    decreases |s| - i
  {
    if i < |s| && InClass(s[i], k) then RunEnd(s, i + 1, k) else i
  }

  /** Start of the run of blanks that ends at index `j` of `s`. */
  function BlankRunStart(s: string, j: nat): (i: nat)
    requires j <= |s|
    ensures i <= j
    ensures forall p :: i <= p < j ==> IsBlank(s[p])
    ensures i == 0 || !IsBlank(s[i - 1])
  {
    if j > 0 && IsBlank(s[j - 1]) then BlankRunStart(s, j - 1) else j
  }

  /** Drops the leading whitespace of `s` (Python's `lstrip()`). */
  function TrimStart(s: string): (r: string)
    ensures |r| <= |s| && r == s[|s| - |r|..]
    ensures AllBlank(s[..|s| - |r|])
    ensures |r| == 0 || !IsBlank(r[0])
  {
    s[RunEnd(s, 0, Blanks)..]
  }

  /** Drops the trailing whitespace of `s` (Python's `rstrip()`). */
  function TrimEnd(s: string): (r: string)
    ensures |r| <= |s| && r == s[..|r|]
    ensures AllBlank(s[|r|..])
    ensures |r| == 0 || !IsBlank(r[|r| - 1])
  {
    s[..BlankRunStart(s, |s|)]
  }

  /** Drops the whitespace at both edges of `s` (Python's `strip()`). */
  function Trim(s: string): (r: string)
    ensures IsTrimmed(r)
    ensures BlankBordered(s, r)
  {
    var u := TrimStart(s);
    var r := TrimEnd(u);
    Bordered(s, u, r);
    r
  }

  /** Length of the longest prefix of `s` made of identifier characters. */
  function IdentSpan(s: string): (n: nat)
    ensures n <= |s| && AllIdentChars(s[..n])
    ensures n == |s| || !IsIdentChar(s[n])
  {
    RunEnd(s, 0, IdentChars)
  }

  /** Position of the first `c` in `s`, or `|s|` when there is none. */
  function IndexOf(s: string, c: char): (i: nat)
    ensures i <= |s| && c !in s[..i]
    ensures i < |s| ==> s[i] == c
  {
    RunEnd(s, 0, Except(c))
  }

  /** A run is determined by where it stops: `RunEnd` finds exactly that place. */
  lemma {:induction false} RunEndIs(s: string, i: nat, k: CharClass, j: nat)
    requires i <= j <= |s|
    requires forall p :: i <= p < j ==> InClass(s[p], k)
    requires j == |s| || !InClass(s[j], k)
    ensures RunEnd(s, i, k) == j
    decreases j - i
  {
    if i < j {
      RunEndIs(s, i + 1, k, j);
    }
  }

  lemma {:induction false} BlankRunStartIs(s: string, j: nat, i: nat)
    requires i <= j <= |s|
    requires forall p :: i <= p < j ==> IsBlank(s[p])
    requires i == 0 || !IsBlank(s[i - 1])
    ensures BlankRunStart(s, j) == i
    decreases j - i
  {
    if i < j {
      BlankRunStartIs(s, j - 1, i);
    }
  }

  lemma IdentCharIsNotBlank(c: char)
    ensures IsIdentChar(c) ==> !IsBlank(c)
  {
  }

  /** Skipping a whitespace run that is followed by a non-blank lands on that character. */
  lemma TrimStartSkipsBlanks(a: string, s: string)
    requires AllBlank(a)
    requires |s| == 0 || !IsBlank(s[0])
    ensures TrimStart(a + s) == s
  {
    RunEndIs(a + s, 0, Blanks, |a|);
  }

  lemma TrimEndSkipsBlanks(s: string, b: string)
    requires AllBlank(b)
    requires |s| == 0 || !IsBlank(s[|s| - 1])
    ensures TrimEnd(s + b) == s
  {
    BlankRunStartIs(s + b, |s + b|, |s|);
  }

  /** `Trim` gives back exactly the trimmed text between two whitespace runs:
      together with `Trim`'s own contract, this characterises `Trim` completely. */
  lemma {:induction false} TrimOfBordered(a: string, v: string, b: string)
    requires AllBlank(a) && AllBlank(b) && IsTrimmed(v)
    ensures Trim(a + v + b) == v
  {
    if |v| == 0 {
      assert a + v + b == (a + b) + [];
      TrimStartSkipsBlanks(a + b, []);
      TrimEndSkipsBlanks([], []);
    } else {
      assert a + v + b == a + (v + b);
      TrimStartSkipsBlanks(a, v + b);
      TrimEndSkipsBlanks(v, b);
    }
  }

  /** The ASCII separators count as whitespace: `strip` removes them from
      both edges, as Python's `'\x1c a \x1f'.strip()` gives `'a'`. */
  lemma SeparatorsAreStripped()
    ensures Trim("\U{1c} a \U{1f}") == "a"
  {
    TrimOfBordered("\U{1c} ", "a", " \U{1f}");
    assert "\U{1c} " + "a" + " \U{1f}" == "\U{1c} a \U{1f}";
  }

  /** The identifier-character run that starts `id + s` is `id` when `s` does not continue it. */
  lemma IdentSpanOfIdent(id: string, s: string)
    requires AllIdentChars(id)
    requires |s| == 0 || !IsIdentChar(s[0])
    ensures IdentSpan(id + s) == |id|
  {
    RunEndIs(id + s, 0, IdentChars, |id|);
  }

  /** The first `c` of `pre + [c] + post` is the one after `pre` when `pre` has none. */
  lemma IndexOfFirst(pre: string, c: char, post: string)
    requires c !in pre
    ensures IndexOf(pre + [c] + post, c) == |pre|
  {
    RunEndIs(pre + [c] + post, 0, Except(c), |pre|);
  }

  lemma IndexOfAbsent(s: string, c: char)
    requires c !in s
    ensures IndexOf(s, c) == |s|
  {
  }

  lemma BlankHasNo(s: string, c: char)
    requires AllBlank(s) && !IsBlank(c)
    ensures c !in s
  {
  }

  /** Cutting `s` at `i` and gluing the pieces back gives `s`. */
  lemma CutAt(s: string, i: nat)
    requires i <= |s|
    ensures s == s[..i] + s[i..]
  {
  }

  /** A non-empty `s` is its first character followed by the rest. */
  lemma HeadSplit(s: string)
    requires |s| > 0
    ensures s == [s[0]] + s[1..]
  {
  }

  lemma AppendEmpty(s: string)
    ensures s + "" == s
  {
  }

  lemma TakeAll(s: string)
    ensures s[..|s|] == s
  {
  }

  /** Cutting `s` around the character at `i`. */
  lemma CutAround(s: string, i: nat)
    requires i < |s|
    ensures s == s[..i] + [s[i]] + s[i + 1..]
  {
  }

  /** Cutting a blank prefix and then a blank suffix leaves a blank-bordered infix. */
  lemma Bordered(s: string, u: string, r: string)
    requires |u| <= |s| && u == s[|s| - |u|..] && AllBlank(s[..|s| - |u|])
    requires |r| <= |u| && r == u[..|r|] && AllBlank(u[|r|..])
    ensures BlankBordered(s, r)
  {
    var a, b := s[..|s| - |u|], u[|r|..];
    CutAt(s, |s| - |u|);
    CutAt(u, |r|);
    assert s == a + r + b;
  }

  /** The whitespace runs `Trim` removes from `s`. */
  lemma TrimBorders(s: string) returns (a: string, b: string)
    ensures AllBlank(a) && AllBlank(b) && s == a + Trim(s) + b
  {
    a, b :| AllBlank(a) && AllBlank(b) && s == a + Trim(s) + b;
  }

  /** Trimming never brings in a character `s` does not hold. */
  lemma TrimKeepsAbsent(s: string, c: char)
    requires c !in s
    ensures c !in Trim(s)
  {
    var a, b := TrimBorders(s);
    assert forall i :: 0 <= i < |Trim(s)| ==> Trim(s)[i] == s[|a| + i];
  }
}
