/** `_match_attribute(line)`: recognises a one-line attribute definition
    `NAME [: TYPE] = VALUE [# COMMENT]` and splits it into its four parts. */
module AttributeMatcher {
  import opened Options
  import opened Text

  /** The 4-tuple `(name, type, value, comment)` returned on a match; the type
      and the comment are absent (`None`) when the line has none. */
  datatype Match = Match(name: string, type_: Option<string>, value: string, comment: Option<string>)

  /** What every match satisfies: an identifier as name, an identifier-character
      token as type, a non-empty trimmed value holding no `#` and not starting with
      `=` (so that `==` is not read as an assignment), and a trimmed comment. */
  predicate WellFormed(m: Match) {
    && IsIdentifier(m.name)
    && (m.type_.Some? ==> |m.type_.value| > 0 && AllIdentChars(m.type_.value))
    && |m.value| > 0 && IsTrimmed(m.value) && m.value[0] != '=' && '#' !in m.value
    && (m.comment.Some? ==> IsTrimmed(m.comment.value))
  }

  /** The whitespace runs a line may carry around the parts of a definition. */
  datatype Spacing = Spacing(
    lead: string, afterName: string, afterColon: string, afterType: string,
    beforeValue: string, beforeHash: string, afterHash: string, trailing: string)

  predicate IsBlankSpacing(sp: Spacing) {
    && AllBlank(sp.lead) && AllBlank(sp.afterName) && AllBlank(sp.afterColon)
    && AllBlank(sp.afterType) && AllBlank(sp.beforeValue) && AllBlank(sp.beforeHash)
    && AllBlank(sp.afterHash) && AllBlank(sp.trailing)
  }

  function TypeLayout(type_: Option<string>, sp: Spacing): string {
    match type_
    case None => ""
    case Some(t) => ":" + sp.afterColon + t + sp.afterType
  }

  function CommentLayout(comment: Option<string>, sp: Spacing): string {
    match comment
    case None => ""
    case Some(c) => sp.beforeHash + "#" + sp.afterHash + c
  }

  /** The right-hand side after the assignment `=`: value, optional comment, trailing blanks. */
  function RhsLayout(m: Match, sp: Spacing): string {
    sp.beforeValue + m.value + CommentLayout(m.comment, sp) + sp.trailing
  }

  /** The line `NAME [: TYPE] = VALUE [# COMMENT]` that writes `m` out with the
      whitespace of `sp`: the reference grammar the matcher is proved against. */
  function Layout(m: Match, sp: Spacing): string {
    sp.lead + m.name + sp.afterName + TypeLayout(m.type_, sp) + "="
      + sp.beforeValue + m.value + CommentLayout(m.comment, sp) + sp.trailing
  }

  /** `Layout` read from the left, one part of the definition at a time. */
  lemma LayoutNested(m: Match, sp: Spacing)
    ensures Layout(m, sp)
         == sp.lead + (m.name + (sp.afterName + (TypeLayout(m.type_, sp) + ("=" + RhsLayout(m, sp)))))
  {
    Regroup(sp.lead, m.name, sp.afterName, TypeLayout(m.type_, sp), "=",
      sp.beforeValue, m.value, CommentLayout(m.comment, sp), sp.trailing);
  }

  lemma Regroup(a: string, b: string, c: string, d: string, e: string,
                f: string, g: string, h: string, i: string)
    ensures a + b + c + d + e + f + g + h + i == a + (b + (c + (d + (e + (f + g + h + i)))))
  {
  }

  /** Splits `line` into name, type, value and comment, or gives `None` when the
      line is not a simple attribute definition. */
  function MatchAttribute(line: string): (r: Option<Match>)
    ensures r.Some? ==> WellFormed(r.value)
  {
    var s := TrimStart(line);
    var n := IdentSpan(s);
    if n == 0 || IsDigit(s[0]) then None
    else MatchAfterName(s[..n], TrimStart(s[n..]))
  }

  /** After the name: either a `:` that introduces a type, or the assignment itself. */
  function MatchAfterName(name: string, s: string): (r: Option<Match>)
    ensures r.Some? ==> r.value.name == name
    ensures r.Some? && r.value.type_.Some? ==> |r.value.type_.value| > 0 && AllIdentChars(r.value.type_.value)
  {
    if |s| > 0 && s[0] == ':' then MatchTyped(name, TrimStart(s[1..]))
    else MatchAssignment(name, None, s)
  }

  /** After the `:`: the type token, then the assignment. */
  function MatchTyped(name: string, s: string): (r: Option<Match>)
    ensures r.Some? ==> r.value.name == name && r.value.type_.Some?
    ensures r.Some? ==> |r.value.type_.value| > 0 && AllIdentChars(r.value.type_.value)
  {
    var k := IdentSpan(s);
    if k == 0 then None
    else MatchAssignment(name, Some(s[..k]), TrimStart(s[k..]))
  }

  /** The part of a definition from the assignment `=` on. */
  function MatchAssignment(name: string, type_: Option<string>, s: string): (r: Option<Match>)
    ensures r.Some? ==> r.value.name == name && r.value.type_ == type_
    ensures r.Some? ==> |r.value.value| > 0 && IsTrimmed(r.value.value)
    ensures r.Some? ==> r.value.value[0] != '=' && '#' !in r.value.value
    ensures r.Some? ==> (r.value.comment.Some? ==> IsTrimmed(r.value.comment.value))
  {
    if |s| == 0 || s[0] != '=' then None else MatchRhs(name, type_, s[1..])
  }

  /** The right-hand side after the `=`: the value runs up to the first `#`,
      the comment is everything after it. */
  function MatchRhs(name: string, type_: Option<string>, rhs: string): (r: Option<Match>)
    ensures r.Some? ==> r.value.name == name && r.value.type_ == type_
    ensures r.Some? ==> |r.value.value| > 0 && IsTrimmed(r.value.value)
    ensures r.Some? ==> r.value.value[0] != '=' && '#' !in r.value.value
    ensures r.Some? ==> (r.value.comment.Some? ==> IsTrimmed(r.value.comment.value))
  {
    var h := IndexOf(rhs, '#');
    var value := Trim(rhs[..h]);
    if |value| == 0 || value[0] == '=' then None
    else
      TrimKeepsAbsent(rhs[..h], '#');
      Some(Match(name, type_, value, if h == |rhs| then None else Some(Trim(rhs[h + 1..]))))
  }

  /** Completeness against the reference grammar: every well-formed definition,
      written out with any whitespace, is recognised and split back into its parts. */
  lemma {:induction false} LayoutIsMatched(m: Match, sp: Spacing)
    requires WellFormed(m) && IsBlankSpacing(sp)
    ensures MatchAttribute(Layout(m, sp)) == Some(m)
  {
    var afterName := sp.afterName + (TypeLayout(m.type_, sp) + ("=" + RhsLayout(m, sp)));
    LayoutNested(m, sp);
    assert |afterName| == 0 || !IsIdentChar(afterName[0]) by {
      assert afterName == sp.afterName + (TypeLayout(m.type_, sp) + "=" + RhsLayout(m, sp));
      IdentCharIsNotBlank(afterName[0]);
    }
    NamedLineIsMatched(sp.lead, m.name, afterName);
    AfterNameIsMatched(m, sp);
  }

  /** A line that opens with an identifier is decided by what follows it. */
  lemma NamedLineIsMatched(lead: string, name: string, afterName: string)
    requires AllBlank(lead) && IsIdentifier(name)
    requires |afterName| == 0 || !IsIdentChar(afterName[0])
    ensures MatchAttribute(lead + (name + afterName)) == MatchAfterName(name, TrimStart(afterName))
  {
    NameIsSplit(lead, name, afterName);
  }

  lemma AfterNameIsMatched(m: Match, sp: Spacing)
    requires WellFormed(m) && IsBlankSpacing(sp)
    ensures MatchAfterName(m.name, TrimStart(sp.afterName + (TypeLayout(m.type_, sp) + ("=" + RhsLayout(m, sp))))) == Some(m)
  {
    var assign := "=" + RhsLayout(m, sp);
    if m.type_.None? {
      assert TypeLayout(m.type_, sp) + assign == assign;
      AssignmentIsMatched(m, sp);
      TrimStartSkipsBlanks(sp.afterName, assign);
    } else {
      var x := TypeLayout(m.type_, sp) + assign;
      TrimStartSkipsBlanks(sp.afterName, x);
      TypedIsMatched(m, sp);
    }
  }

  lemma TypedIsMatched(m: Match, sp: Spacing)
    requires WellFormed(m) && IsBlankSpacing(sp) && m.type_.Some?
    ensures var x := TypeLayout(m.type_, sp) + ("=" + RhsLayout(m, sp));
      |x| > 0 && x[0] == ':' && MatchTyped(m.name, TrimStart(x[1..])) == Some(m)
  {
    var assign := "=" + RhsLayout(m, sp);
    var t := m.type_.value;
    var x := TypeLayout(m.type_, sp) + assign;
    assert x == ":" + sp.afterColon + t + sp.afterType + assign;
    TypeIsSplit(sp.afterColon, t, sp.afterType, assign);
    AssignmentIsMatched(m, sp);
  }

  /** The leading identifier of a line is cut off exactly, whatever blanks precede it. */
  lemma NameIsSplit(lead: string, name: string, afterName: string)
    requires AllBlank(lead) && IsIdentifier(name)
    requires |afterName| == 0 || !IsIdentChar(afterName[0])
    ensures var s := TrimStart(lead + (name + afterName));
      && s == name + afterName && IdentSpan(s) == |name|
      && s[..|name|] == name && s[|name|..] == afterName
  {
    IdentCharIsNotBlank(name[0]);
    TrimStartSkipsBlanks(lead, name + afterName);
    IdentSpanOfIdent(name, afterName);
    assert (name + afterName)[..|name|] == name;
  }

  /** A `: TYPE` annotation is read back as its type token, leaving the assignment. */
  lemma TypeIsSplit(afterColon: string, t: string, afterType: string, assign: string)
    requires AllBlank(afterColon) && AllBlank(afterType)
    requires |t| > 0 && AllIdentChars(t)
    requires |assign| > 0 && assign[0] == '='
    ensures var x := ":" + afterColon + t + afterType + assign;
      && |x| > 0 && x[0] == ':'
      && var u := TrimStart(x[1..]);
      && IdentSpan(u) == |t| && u[..|t|] == t && TrimStart(u[|t|..]) == assign
  {
    var tail := t + (afterType + assign);
    var x := ":" + afterColon + t + afterType + assign;
    assert x[1..] == afterColon + tail;
    IdentCharIsNotBlank(t[0]);
    TrimStartSkipsBlanks(afterColon, tail);
    IdentSpanOfIdent(t, afterType + assign);
    assert tail[..|t|] == t && tail[|t|..] == afterType + assign;
    TrimStartSkipsBlanks(afterType, assign);
  }

  lemma AssignmentIsMatched(m: Match, sp: Spacing)
    requires WellFormed(m) && IsBlankSpacing(sp)
    ensures MatchAssignment(m.name, m.type_, "=" + RhsLayout(m, sp)) == Some(m)
  {
    var rhs := RhsLayout(m, sp);
    assert ("=" + rhs)[1..] == rhs;
    RhsIsMatched(m, sp);
  }

  lemma RhsIsMatched(m: Match, sp: Spacing)
    requires WellFormed(m) && IsBlankSpacing(sp)
    ensures MatchRhs(m.name, m.type_, RhsLayout(m, sp)) == Some(m)
  {
    RhsIsSplit(m, sp);
  }

  /** The value and the comment are read back from the right-hand side. */
  lemma {:induction false} RhsIsSplit(m: Match, sp: Spacing)
    requires WellFormed(m) && IsBlankSpacing(sp)
    ensures var rhs := RhsLayout(m, sp);
      var h := IndexOf(rhs, '#');
      && Trim(rhs[..h]) == m.value
      && (if h == |rhs| then None else Some(Trim(rhs[h + 1..]))) == m.comment
  {
    var rhs := RhsLayout(m, sp);
    var h := IndexOf(rhs, '#');
    if m.comment.None? {
      assert h == |rhs| && rhs[..h] == sp.beforeValue + m.value + sp.trailing by {
        BlankHasNo(sp.beforeValue, '#');
        BlankHasNo(sp.trailing, '#');
        IndexOfAbsent(rhs, '#');
      }
      TrimOfBordered(sp.beforeValue, m.value, sp.trailing);
    } else {
      var c := m.comment.value;
      assert rhs == sp.beforeValue + m.value + (sp.beforeHash + "#" + sp.afterHash + c) + sp.trailing;
      CommentSplit(m.value, c, sp);
      TrimOfBordered(sp.beforeValue, m.value, sp.beforeHash);
      TrimOfBordered(sp.afterHash, c, sp.trailing);
    }
  }

  /** Where the matcher cuts a right-hand side that carries a comment: at the `#`. */
  lemma CommentSplit(value: string, c: string, sp: Spacing)
    requires '#' !in value && IsBlankSpacing(sp)
    ensures var rhs := sp.beforeValue + value + (sp.beforeHash + "#" + sp.afterHash + c) + sp.trailing;
      var h := IndexOf(rhs, '#');
      h < |rhs| && rhs[..h] == sp.beforeValue + value + sp.beforeHash
      && rhs[h + 1..] == sp.afterHash + c + sp.trailing
  {
    var rhs := sp.beforeValue + value + (sp.beforeHash + "#" + sp.afterHash + c) + sp.trailing;
    var pre := sp.beforeValue + value + sp.beforeHash;
    var post := sp.afterHash + c + sp.trailing;
    BlankHasNo(sp.beforeValue, '#');
    BlankHasNo(sp.beforeHash, '#');
    assert rhs == pre + ['#'] + post;
    IndexOfFirst(pre, '#', post);
  }

  /** Soundness against the reference grammar: a matched line is exactly its
      four parts written out with some whitespace, so nothing is dropped or invented. */
  lemma {:induction false} MatchHasLayout(line: string)
    ensures MatchAttribute(line).Some? ==>
      exists sp :: IsBlankSpacing(sp) && Layout(MatchAttribute(line).value, sp) == line
  {
    if MatchAttribute(line).Some? {
      var sp := SpacingOf(line);
    }
  }

  /** The whitespace a matched line carries around its parts. */
  lemma SpacingOf(line: string) returns (sp: Spacing)
    requires MatchAttribute(line).Some?
    ensures IsBlankSpacing(sp) && Layout(MatchAttribute(line).value, sp) == line
  {
    var m := MatchAttribute(line).value;
    var s := TrimStart(line);
    var lead := line[..|line| - |s|];
    CutAt(line, |line| - |s|);
    var n := IdentSpan(s);
    var x := s[n..];
    CutAt(s, n);
    var rest := TrimStart(x);
    var afterName := x[..|x| - |rest|];
    CutAt(x, |x| - |rest|);
    var sp0 := AfterNameHasLayout(m, s[..n], rest);
    sp := sp0.(lead := lead, afterName := afterName);
    LayoutNested(m, sp);
    assert TypeLayout(m.type_, sp) + ("=" + RhsLayout(m, sp))
      == TypeLayout(m.type_, sp0) + ("=" + RhsLayout(m, sp0));
  }

  /** The text after the name, as the layout of an optional type and the assignment. */
  lemma AfterNameHasLayout(m: Match, name: string, s: string) returns (sp: Spacing)
    requires MatchAfterName(name, s) == Some(m)
    ensures IsBlankSpacing(sp) && s == TypeLayout(m.type_, sp) + ("=" + RhsLayout(m, sp))
  {
    if |s| > 0 && s[0] == ':' {
      sp := AnnotatedHasLayout(m, name, s);
    } else {
      sp := UnannotatedHasLayout(m, name, s);
    }
  }

  lemma AnnotatedHasLayout(m: Match, name: string, s: string) returns (sp: Spacing)
    requires |s| > 0 && s[0] == ':' && MatchTyped(name, TrimStart(s[1..])) == Some(m)
    ensures IsBlankSpacing(sp) && s == TypeLayout(m.type_, sp) + ("=" + RhsLayout(m, sp))
  {
    sp := TypedHasLayout(m, name, s[1..]);
    var t := m.type_.value;
    CutAt(s, 1);
    TypedRegroup(s, sp.afterColon, t, sp.afterType, "=" + RhsLayout(m, sp));
    assert TypeLayout(m.type_, sp) == ":" + sp.afterColon + t + sp.afterType;
  }

  lemma UnannotatedHasLayout(m: Match, name: string, s: string) returns (sp: Spacing)
    requires MatchAssignment(name, None, s) == Some(m)
    ensures IsBlankSpacing(sp) && s == TypeLayout(m.type_, sp) + ("=" + RhsLayout(m, sp))
  {
    sp := AssignmentHasLayout(m, name, None, s);
    assert TypeLayout(m.type_, sp) == "";
  }

  /** The text after the `:`, as blanks, the type token, blanks and the assignment. */
  lemma TypedHasLayout(m: Match, name: string, x: string) returns (sp: Spacing)
    requires MatchTyped(name, TrimStart(x)) == Some(m)
    ensures IsBlankSpacing(sp) && m.type_.Some?
    ensures x == sp.afterColon + (m.type_.value + (sp.afterType + ("=" + RhsLayout(m, sp))))
  {
    var u := TrimStart(x);
    var afterColon := x[..|x| - |u|];
    CutAt(x, |x| - |u|);
    var k := IdentSpan(u);
    var y := u[k..];
    CutAt(u, k);
    var v := TrimStart(y);
    var afterType := y[..|y| - |v|];
    CutAt(y, |y| - |v|);
    var sp0 := AssignmentHasLayout(m, name, Some(u[..k]), v);
    sp := sp0.(afterColon := afterColon, afterType := afterType);
    assert RhsLayout(m, sp) == RhsLayout(m, sp0);
  }

  lemma TypedRegroup(s: string, p: string, t: string, q: string, v: string)
    requires |s| > 0 && s[0] == ':' && s == s[..1] + s[1..] && s[1..] == p + (t + (q + v))
    ensures s == ":" + p + t + q + v
  {
  }

  /** The text from the `=` on, as the layout of the value and the optional comment. */
  lemma AssignmentHasLayout(m: Match, name: string, type_: Option<string>, s: string) returns (sp: Spacing)
    requires MatchAssignment(name, type_, s) == Some(m)
    ensures IsBlankSpacing(sp) && s == "=" + RhsLayout(m, sp)
  {
    sp := RhsHasLayout(m, name, type_, s[1..]);
    HeadSplit(s);
  }

  /** The right-hand side, as blanks, the value, the optional comment and blanks. */
  lemma RhsHasLayout(m: Match, name: string, type_: Option<string>, rhs: string) returns (sp: Spacing)
    requires MatchRhs(name, type_, rhs) == Some(m)
    ensures IsBlankSpacing(sp) && rhs == RhsLayout(m, sp)
  {
    var h := IndexOf(rhs, '#');
    if h == |rhs| {
      sp := PlainRhsHasLayout(m, rhs, h);
    } else {
      sp := CommentedRhsHasLayout(m, rhs, h);
    }
  }

  lemma PlainRhsHasLayout(m: Match, rhs: string, h: nat) returns (sp: Spacing)
    requires h == |rhs| && m.comment.None? && m.value == Trim(rhs[..h])
    ensures IsBlankSpacing(sp) && rhs == RhsLayout(m, sp)
  {
    TakeAll(rhs);
    var a, b := TrimBorders(rhs);
    sp := Spacing("", "", "", "", a, "", "", b);
    AppendEmpty(a + m.value);
    assert CommentLayout(m.comment, sp) == "";
  }

  lemma CommentedRhsHasLayout(m: Match, rhs: string, h: nat) returns (sp: Spacing)
    requires h < |rhs| && rhs[h] == '#'
    requires m.value == Trim(rhs[..h]) && m.comment == Some(Trim(rhs[h + 1..]))
    ensures IsBlankSpacing(sp) && rhs == RhsLayout(m, sp)
  {
    var a, b := TrimBorders(rhs[..h]);
    var c1, c2 := TrimBorders(rhs[h + 1..]);
    sp := Spacing("", "", "", "", a, b, c1, c2);
    CommentRegroup(rhs, h, a, m.value, b, c1, m.comment.value, c2);
    assert RhsLayout(m, sp) == a + m.value + (b + "#" + c1 + m.comment.value) + c2;
  }

  lemma CommentRegroup(s: string, h: nat, a: string, v: string, b: string, c1: string, c: string, c2: string)
    requires h < |s| && s[h] == '#'
    requires s[..h] == a + v + b && s[h + 1..] == c1 + c + c2
    ensures s == a + v + (b + "#" + c1 + c) + c2
  {
    CutAround(s, h);
  }

  /** The matcher and the reference grammar agree on every line: a line matches
      with parts `m` exactly when it is `m` written out with some whitespace. */
  lemma MatchIffLayout(line: string, m: Match)
    ensures MatchAttribute(line) == Some(m) <==>
      WellFormed(m) && exists sp :: IsBlankSpacing(sp) && Layout(m, sp) == line
  {
    if MatchAttribute(line) == Some(m) {
      var sp := SpacingOf(line);
    }
    if WellFormed(m) && exists sp :: IsBlankSpacing(sp) && Layout(m, sp) == line {
      var sp :| IsBlankSpacing(sp) && Layout(m, sp) == line;
      LayoutIsMatched(m, sp);
    }
  }

  /** Two words separated only by whitespace at the start of a line never form a
      definition: neither a name with a space in it nor a type without its colon. */
  lemma {:induction false} WordAfterNameRejected(lead: string, name: string, gap: string, rest: string)
    requires AllBlank(lead) && IsIdentifier(name)
    requires |gap| > 0 && AllBlank(gap)
    requires |rest| > 0 && IsIdentChar(rest[0])
    ensures MatchAttribute(lead + name + gap + rest) == None
  {
    Regroup4(lead, name, gap, rest);
    NamedLineIsMatched(lead, name, gap + rest);
    IdentCharIsNotBlank(rest[0]);
    TrimStartSkipsBlanks(gap, rest);
    SecondWordRejected(name, rest);
  }

  /** A second word where a `:` or the `=` is due stops the match. */
  lemma SecondWordRejected(name: string, rest: string)
    requires |rest| > 0 && IsIdentChar(rest[0])
    ensures MatchAfterName(name, rest) == None
  {
    assert rest[0] != ':' && rest[0] != '=' by {
      IdentCharIsNotPunct(rest[0]);
    }
    assert MatchAssignment(name, None, rest) == None;
  }

  lemma IdentCharIsNotPunct(c: char)
    requires IsIdentChar(c)
    ensures c != ':' && c != '='
  {
  }

  lemma Regroup4(a: string, b: string, c: string, d: string)
    ensures a + b + c + d == a + (b + (c + d))
  {
  }
}
