/** `_find_attribute_docstring(lines)`: finds the triple-quoted block that ends
    the given lines and returns its text with the edge whitespace removed. */
module DocstringLocator {
  import opened Options
  import opened Text

  /** The two quote styles a docstring may use: `"""` and `'''`. */
  datatype QuoteStyle = DoubleQuotes | SingleQuotes

  function QuoteChar(q: QuoteStyle): char {
    if q == DoubleQuotes then '"' else '\''
  }

  /** Three quote characters of one style: the opening and closing marker. */
  function Marker(q: QuoteStyle): string {
    [QuoteChar(q), QuoteChar(q), QuoteChar(q)]
  }

  predicate MarkerAt(s: string, q: QuoteStyle, j: int) {
    0 <= j && j + 3 <= |s| && s[j..j + 3] == Marker(q)
  }

  predicate NoMarker(s: string, q: QuoteStyle) {
    forall j :: 0 <= j < |s| ==> !MarkerAt(s, q, j)
  }

  /** The last marker of style `q` that starts before position `k`, if any. */
  function LastMarkerBefore(s: string, q: QuoteStyle, k: nat): (r: Option<nat>)
    ensures r.Some? ==> r.value < k && MarkerAt(s, q, r.value)
    ensures r.Some? ==> forall j :: r.value < j < k ==> !MarkerAt(s, q, j)
    ensures r.None? ==> forall j :: 0 <= j < k ==> !MarkerAt(s, q, j)
    decreases k
  {
    if k == 0 then None
    else if MarkerAt(s, q, k - 1) then Some(k - 1)
    else LastMarkerBefore(s, q, k - 1)
  }

  /** Only whitespace lies between the last line break of `p` (or its start) and
      its end, so that whatever follows `p` begins its own line. */
  predicate AtLineStart(p: string)
    decreases |p|
  {
    |p| == 0 || p[|p| - 1] == '\n' || (IsBlank(p[|p| - 1]) && AtLineStart(p[..|p| - 1]))
  }

  /** The quote style of the marker that ends `t`, if `t` ends with one. */
  function ClosingStyle(t: string): (r: Option<QuoteStyle>)
    ensures r.Some? <==> |t| >= 3 && (t[|t| - 3..] == Marker(DoubleQuotes) || t[|t| - 3..] == Marker(SingleQuotes))
    ensures r.Some? ==> t[|t| - 3..] == Marker(r.value)
  {
    if |t| < 3 then None
    else if t[|t| - 3..] == Marker(DoubleQuotes) then Some(DoubleQuotes)
    else if t[|t| - 3..] == Marker(SingleQuotes) then Some(SingleQuotes)
    else None
  }

  /** The docstring that ends `text`: after trailing whitespace, `text` must end
      with a marker; the block opens at the nearest earlier marker of the same
      style, which must begin its line; the result is the text in between, trimmed. */
  function FindDocstring(text: string): (r: Option<string>)
    ensures r.Some? ==> IsTrimmed(r.value)
  {
    var t := TrimEnd(text);
    match ClosingStyle(t)
    case None => None
    case Some(q) =>
      var body := t[..|t| - 3];
      match LastMarkerBefore(body, q, |body|)
      case None => None
      case Some(i) =>
        if AtLineStart(body[..i]) then Some(Trim(body[i + 3..])) else None
  }

  /** Python's `''.join(lines)`. */
  function Join(lines: seq<string>): string {
    if |lines| == 0 then [] else Join(lines[..|lines| - 1]) + lines[|lines| - 1]
  }

  /** The list form the repository works on: its elements may hold several line
      breaks each, so only their concatenation matters. */
  function FindAttributeDocstring(lines: seq<string>): (r: Option<string>)
    ensures r.Some? ==> IsTrimmed(r.value)
  {
    FindDocstring(Join(lines))
  }

  /** `content` can stand between two markers of style `q` with the opener found
      as the nearest marker before the closer: it holds no marker and does not
      begin with a quote character that would extend the opener. */
  predicate FitsBetween(content: string, q: QuoteStyle) {
    NoMarker(content, q) && (|content| == 0 || content[0] != QuoteChar(q))
  }

  /** The reference layout of a docstring at the end of some text: text before
      it, the opening marker, the content, the closing marker, trailing text. */
  function Block(before: string, q: QuoteStyle, content: string, after: string): string {
    before + Marker(q) + content + Marker(q) + after
  }

  /** An opening marker indented only by whitespace starts its line. */
  lemma {:induction false} IndentedAtLineStart(p: string, indent: string)
    requires |p| == 0 || p[|p| - 1] == '\n'
    requires AllBlank(indent)
    ensures AtLineStart(p + indent)
    decreases |indent|
  {
    if |indent| > 0 {
      var shorter := indent[..|indent| - 1];
      assert (p + indent)[..|p + indent| - 1] == p + shorter;
      IndentedAtLineStart(p, shorter);
    } else {
      assert p + indent == p;
    }
  }

  /** Completeness against the reference layout: a well-formed block that is
      followed only by whitespace is found, and its content is returned trimmed. */
  lemma {:induction false} BlockIsFound(before: string, q: QuoteStyle, content: string, after: string)
    requires AtLineStart(before) && FitsBetween(content, q) && AllBlank(after)
    ensures FindDocstring(Block(before, q, content, after)) == Some(Trim(content))
  {
    var body := before + Marker(q) + content;
    ClosedBy(body, q, after);
    OpenedAt(before, q, content);
  }

  /** The limit of the nearest-marker rule: content that begins with the
      block's own quote character lengthens the opening run of quotes, the
      opener is then taken to be a later marker inside that run, and since a
      quote precedes it on its line nothing is found. */
  lemma QuoteLedContentRejected(before: string, q: QuoteStyle, content: string, after: string)
    requires NoMarker(content, q) && |content| > 0 && content[0] == QuoteChar(q)
    requires AllBlank(after)
    ensures FindDocstring(Block(before, q, content, after)) == None
  {
    var body := before + Marker(q) + content;
    ClosedBy(body, q, after);
    var i := OpenerInQuoteRun(before, q, content);
  }

  /** The last marker of `before + marker + content`, when the content begins
      with a quote character, lies inside the run of quotes, so it follows a
      quote and does not begin its line. */
  lemma OpenerInQuoteRun(before: string, q: QuoteStyle, content: string) returns (i: nat)
    requires NoMarker(content, q) && |content| > 0 && content[0] == QuoteChar(q)
    ensures var body := before + Marker(q) + content;
      && 0 < i < |body| && LastMarkerBefore(body, q, |body|) == Some(i)
      && !AtLineStart(body[..i])
  {
    var body := before + Marker(q) + content;
    var n := |before|;
    assert body[n + 1..n + 4] == Marker(q);
    forall j | n + 2 < j < |body|
      ensures !MarkerAt(body, q, j)
    {
      var k := j - n - 3;
      if j + 3 <= |body| {
        assert body[j..j + 3] == content[k..k + 3];
        assert !MarkerAt(content, q, k);
      }
    }
    i := if MarkerAt(body, q, n + 2) then n + 2 else n + 1;
    LastMarkerIs(body, q, i);
    assert body[..i][i - 1] == QuoteChar(q);
  }

  /** The opening marker is found right after `before`, and cutting there gives
      back `before` and the content. */
  lemma OpenedAt(before: string, q: QuoteStyle, content: string)
    requires FitsBetween(content, q)
    ensures var body := before + Marker(q) + content;
      && LastMarkerBefore(body, q, |body|) == Some(|before|)
      && body[..|before|] == before && body[|before| + 3..] == content
  {
    var body := before + Marker(q) + content;
    OpenerIsLast(before, q, content);
    LastMarkerIs(body, q, |before|);
    assert body[..|before|] == before && body[|before| + 3..] == content;
  }

  /** Text ending in a marker and then whitespace is seen as closed by that marker. */
  lemma ClosedBy(body: string, q: QuoteStyle, after: string)
    requires AllBlank(after)
    ensures var t := TrimEnd(body + Marker(q) + after);
      && t == body + Marker(q) && ClosingStyle(t) == Some(q) && t[..|t| - 3] == body
  {
    var core := body + Marker(q);
    TrimEndSkipsBlanks(core, after);
    assert core[|core| - 3..] == Marker(q) && core[..|core| - 3] == body;
  }

  /** In `before + marker + content`, the marker after `before` is the last one. */
  lemma OpenerIsLast(before: string, q: QuoteStyle, content: string)
    requires FitsBetween(content, q)
    ensures var body := before + Marker(q) + content;
      && MarkerAt(body, q, |before|)
      && forall j :: |before| < j < |body| ==> !MarkerAt(body, q, j)
  {
    var body := before + Marker(q) + content;
    assert body[|before|..|before| + 3] == Marker(q);
    forall j | |before| < j < |body|
      ensures !MarkerAt(body, q, j)
    {
      var k := j - |before| - 3;
      if j + 3 > |body| {
      } else if k >= 0 {
        assert body[j..j + 3] == content[k..k + 3];
        assert !MarkerAt(content, q, k);
      } else {
        assert body[j..j + 3][-k] == content[0];
        assert Marker(q)[-k] == QuoteChar(q);
      }
    }
  }

  /** `LastMarkerBefore` finds the marker at `i` when no later one exists. */
  lemma LastMarkerIs(s: string, q: QuoteStyle, i: nat)
    requires i < |s| && MarkerAt(s, q, i)
    requires forall j :: i < j < |s| ==> !MarkerAt(s, q, j)
    ensures LastMarkerBefore(s, q, |s|) == Some(i)
  {
  }

  /** Soundness against the reference layout: whatever is found is the trimmed
      content of a well-formed block that ends the text, up to whitespace. */
  lemma {:induction false} FoundIsBlock(text: string)
    ensures FindDocstring(text).Some? ==>
      exists before, q, content, after ::
        && AtLineStart(before) && FitsBetween(content, q) && AllBlank(after)
        && Block(before, q, content, after) == text
        && FindDocstring(text).value == Trim(content)
  {
    if FindDocstring(text).Some? {
      var before, q, content, after := BlockOf(text);
    }
  }

  /** The parts of the block a found docstring comes from. */
  lemma BlockOf(text: string) returns (before: string, q: QuoteStyle, content: string, after: string)
    requires FindDocstring(text).Some?
    ensures AtLineStart(before) && FitsBetween(content, q) && AllBlank(after)
    ensures Block(before, q, content, after) == text
    ensures FindDocstring(text).value == Trim(content)
  {
    var t := TrimEnd(text);
    after := text[|t|..];
    q := ClosingStyle(t).value;
    var body := t[..|t| - 3];
    var i := LastMarkerBefore(body, q, |body|).value;
    before := body[..i];
    content := body[i + 3..];
    BlockRegroup(text, t, body, q, i);
    ContentFits(body, q, i);
  }

  /** A text cut at its closing marker and at an earlier marker, glued back together. */
  lemma BlockRegroup(text: string, t: string, body: string, q: QuoteStyle, i: nat)
    requires |t| <= |text| && t == text[..|t|]
    requires |t| >= 3 && t[|t| - 3..] == Marker(q) && body == t[..|t| - 3]
    requires MarkerAt(body, q, i)
    ensures Block(body[..i], q, body[i + 3..], text[|t|..]) == text
  {
    CutAt(text, |t|);
    CutAt(t, |t| - 3);
    CutAt(body, i);
    CutAt(body[i..], 3);
    assert body == body[..i] + Marker(q) + body[i + 3..];
  }

  /** What follows the last marker of a text fits between two markers. */
  lemma ContentFits(body: string, q: QuoteStyle, i: nat)
    requires i < |body| && MarkerAt(body, q, i)
    requires forall j :: i < j < |body| ==> !MarkerAt(body, q, j)
    ensures FitsBetween(body[i + 3..], q)
  {
    var content := body[i + 3..];
    forall k | 0 <= k < |content|
      ensures !MarkerAt(content, q, k)
    {
      if k + 3 <= |content| {
        assert content[k..k + 3] == body[i + 3 + k..i + 3 + k + 3];
        assert !MarkerAt(body, q, i + 3 + k);
      }
    }
    if |content| > 0 {
      assert body[i + 1..i + 4][2] == content[0];
      assert body[i + 1..i + 4][..2] == body[i..i + 3][1..];
      assert !MarkerAt(body, q, i + 1);
    }
  }

  /** The locator and the reference layout agree on every text: `d` is found
      exactly when the text is a well-formed block, up to whitespace, whose
      trimmed content is `d`. */
  lemma FindIffBlock(text: string, d: string)
    ensures FindDocstring(text) == Some(d) <==>
      exists before, q, content, after ::
        && AtLineStart(before) && FitsBetween(content, q) && AllBlank(after)
        && Block(before, q, content, after) == text && d == Trim(content)
  {
    if FindDocstring(text) == Some(d) {
      var before, q, content, after := BlockOf(text);
    }
    if exists before, q, content, after ::
        && AtLineStart(before) && FitsBetween(content, q) && AllBlank(after)
        && Block(before, q, content, after) == text && d == Trim(content)
    {
      var before, q, content, after :|
        && AtLineStart(before) && FitsBetween(content, q) && AllBlank(after)
        && Block(before, q, content, after) == text && d == Trim(content);
      BlockIsFound(before, q, content, after);
    }
  }

  /** Anything but whitespace after the last quote character rules a docstring
      out, such as a comment line after the closing marker. */
  lemma TrailingTextRejected(s: string, after: string)
    requires AllBlank(after)
    requires |s| > 0 && !IsBlank(s[|s| - 1])
    requires s[|s| - 1] != '"' && s[|s| - 1] != '\''
    ensures FindDocstring(s + after) == None
  {
    var last := s[|s| - 1];
    TrimEndSkipsBlanks(s, after);
    if |s| >= 3 {
      assert s[|s| - 3..][2] == last;
    }
  }

  /** Content without any quote character of the block's style always fits. */
  lemma QuoteFreeFits(content: string, q: QuoteStyle)
    requires QuoteChar(q) !in content
    ensures FitsBetween(content, q)
  {
    forall j | 0 <= j < |content|
      ensures !MarkerAt(content, q, j)
    {
      if j + 3 <= |content| {
        assert content[j..j + 3][0] == content[j];
      }
    }
  }

  /** A closing marker with no complete opening marker of its style before it
      (at most two stray characters, then no quote of that style) yields nothing. */
  lemma UnopenedBlockRejected(a: string, q: QuoteStyle, b: string, after: string)
    requires |a| <= 2 && QuoteChar(q) !in b && AllBlank(after)
    ensures FindDocstring(a + b + Marker(q) + after) == None
  {
    var body := a + b;
    ClosedBy(body, q, after);
    forall j | 0 <= j < |body|
      ensures !MarkerAt(body, q, j)
    {
      if j + 3 <= |body| {
        assert body[j..j + 3][2] == b[j + 2 - |a|];
      }
    }
  }

  /** Appending one more list element appends its text. */
  lemma JoinSnoc(lines: seq<string>, x: string)
    ensures Join(lines + [x]) == Join(lines) + x
  {
    assert (lines + [x])[..|lines|] == lines;
  }

  /** How the text is cut into list elements does not matter: joining two lists
      joins their texts. */
  lemma {:induction false} JoinAppend(a: seq<string>, b: seq<string>)
    ensures Join(a + b) == Join(a) + Join(b)
    decreases |b|
  {
    if |b| == 0 {
      assert a + b == a;
    } else {
      var init := b[..|b| - 1];
      var x := b[|b| - 1];
      assert a + b == (a + init) + [x];
      assert b == init + [x];
      JoinSnoc(a + init, x);
      JoinSnoc(init, x);
      JoinAppend(a, init);
    }
  }

  /** The content of a block comes back verbatim between its first and last
      non-blank characters: line breaks and blank lines inside it are kept. */
  lemma TrimmedBlockIsFound(before: string, q: QuoteStyle, lead: string, inner: string,
                            trail: string, after: string)
    requires AtLineStart(before) && AllBlank(lead) && AllBlank(trail) && AllBlank(after)
    requires IsTrimmed(inner) && QuoteChar(q) !in inner
    ensures FindDocstring(before + Marker(q) + lead + inner + trail + Marker(q) + after) == Some(inner)
  {
    var content := lead + inner + trail;
    assert before + Marker(q) + lead + inner + trail + Marker(q) + after
        == Block(before, q, content, after);
    BlankHasNo(lead, QuoteChar(q));
    BlankHasNo(trail, QuoteChar(q));
    QuoteFreeFits(content, q);
    BlockIsFound(before, q, content, after);
    TrimOfBordered(lead, inner, trail);
  }
}
