# barentsz attribute discovery: line matcher and docstring locator

barentsz discovers the module-level attributes of a Python package. For each
candidate source line it runs `_match_attribute(line)`, which recognises a
one-line definition `NAME [: TYPE] = VALUE [# COMMENT]` and splits it into the
4-tuple `(name, type, value, comment)`. The type and the comment are `None`
when the line has none, and the whole result is `None` when the line is not
such a definition. For the lines that precede a definition it runs
`_find_attribute_docstring(lines)`, which joins the lines and returns the
triple-quoted block (`"""` or `'''`) that ends them, with the block's edge
whitespace stripped, or `None` when there is no such block.

This project models those two functions. The lines they accept are given by
two reference grammars, `Layout` for the matcher and `Block` for the locator,
and every example in `tests/test_discover_attributes.py` is proved of the
model. The matcher accepts only the narrow statement shape above and rejects
near-misses: a second word after the name, or a comparison `==`.

- `options.dfy` (`Options`): the `Option` result type, standing for Python's `None`.
- `text.dfy` (`Text`): ASCII whitespace (as `str.isspace()` defines it) and identifier characters, and
  `TrimStart`/`TrimEnd`/`Trim` (Python's `lstrip`/`rstrip`/`strip`).
  `Trim` is characterised completely: its result is trimmed and blank-bordered
  in the input, and `TrimOfBordered` shows that this pins it down.
- `attribute_matcher.dfy` (`AttributeMatcher`): `MatchAttribute` and the
  reference grammar `Layout(m, sp)`, which writes the parts `m` out with the
  whitespace runs `sp`. `MatchIffLayout` states that the two agree on every
  line, in both directions.
- `docstring_locator.dfy` (`DocstringLocator`): `FindAttributeDocstring`,
  `FindDocstring` on the joined text, and the reference layout
  `Block(before, q, content, after)`. `FindIffBlock` states that they agree on
  every text.
- `test_examples.dfy` (`TestExamples`): every input/output pair the tests
  assert, proved of the model.

## Model

| member | source | states |
|---|---|---|
| Text.Trim | tests/test_discover_attributes.py:16-30 | The result has no whitespace at either edge, and the input is that result with a whitespace run before it and one after it. This is how name, type, value and comment come back stripped. |
| Text.TrimOfBordered | tests/test_discover_attributes.py:16-30 | Stripping a trimmed text surrounded by any whitespace runs gives back exactly that text. Together with `Trim`'s contract this determines `strip` completely. |
| Text.SeparatorsAreStripped | tests/test_discover_attributes.py:16-30 | The ASCII separators (code points 28 to 31) are whitespace to `strip`, as they are to Python's `str.isspace()`: they are removed from both edges like spaces. |
| AttributeMatcher.MatchAttribute | tests/test_discover_attributes.py:14-33 | Every match is well formed: the name is an identifier and the type is a run of identifier characters. The value is non-empty, stripped, holds no `#` and does not start with `=`. The comment is stripped. |
| AttributeMatcher.LayoutIsMatched | tests/test_discover_attributes.py:16-30 | Completeness: any well-formed 4-tuple, written as `NAME [: TYPE] = VALUE [# COMMENT]` with any whitespace runs around its parts, is matched and split back into exactly that tuple. |
| AttributeMatcher.MatchHasLayout | tests/test_discover_attributes.py:14-33 | Soundness: a matched line is exactly its four parts written out with whitespace runs between them. Nothing is dropped, reordered or invented. |
| AttributeMatcher.MatchIffLayout | tests/test_discover_attributes.py:14-33 | A line matches with the tuple `m` if and only if `m` is well formed and the line is `m` written out with some whitespace. |
| AttributeMatcher.WordAfterNameRejected | tests/test_discover_attributes.py:20-33 | An identifier followed by whitespace and another identifier character is never a definition. This covers a type without its colon and a name with a space in it, whatever follows. |
| TestExamples.BareAssignment | tests/test_discover_attributes.py:16-28 | `'  some_attr   =     2  '` gives `('some_attr', None, '2', None)`. |
| TestExamples.TypedAssignment | tests/test_discover_attributes.py:17-29 | `'  some_attr  :  int  =   2  '` gives `('some_attr', 'int', '2', None)`. |
| TestExamples.TypedAssignmentWithComment | tests/test_discover_attributes.py:18-30 | `'  some_attr  :  int  =   2  #   bla bla bla!   '` gives `('some_attr', 'int', '2', 'bla bla bla!')`. |
| TestExamples.TypeWithoutColon | tests/test_discover_attributes.py:20-31 | `'  some_attr    int  =   2  #   bla bla bla!   '` gives `None`. |
| TestExamples.NameWithSpace | tests/test_discover_attributes.py:22-32 | `'  some attr     =   2  #   bla bla bla!   '` gives `None`. |
| TestExamples.ComparisonWithSpacedName | tests/test_discover_attributes.py:24-33 | `'some attr == 2'` gives `None`. |
| DocstringLocator.FindDocstring | tests/test_discover_attributes.py:105-150 | A found docstring has no whitespace at either edge. |
| DocstringLocator.FindAttributeDocstring | tests/test_discover_attributes.py:108-143 | The docstring found in a list of lines has no whitespace at either edge. |
| DocstringLocator.BlockIsFound | tests/test_discover_attributes.py:107-128 | Completeness: a block whose opening marker starts its line (after indentation), whose content holds no marker of its style and does not begin with its quote character, and which is followed only by whitespace is found. The result is its content, stripped. |
| DocstringLocator.FoundIsBlock | tests/test_discover_attributes.py:105-150 | Soundness: whenever a docstring is found, the text is such a block followed by whitespace, and the docstring is the block's stripped content. |
| DocstringLocator.FindIffBlock | tests/test_discover_attributes.py:105-150 | The docstring `d` is found if and only if the text is a well-formed block followed by whitespace whose stripped content is `d`. |
| DocstringLocator.TrimmedBlockIsFound | tests/test_discover_attributes.py:57-58 | The content comes back verbatim between its first and last non-blank characters: line breaks and blank lines inside it are kept. |
| DocstringLocator.UnopenedBlockRejected | tests/test_discover_attributes.py:129-132 | A closing marker preceded by at most two stray characters and quote-free text has no opening marker, so nothing is found. |
| DocstringLocator.TrailingTextRejected | tests/test_discover_attributes.py:133-136 | Any non-whitespace character other than a quote after the closing marker, such as a comment line, rules the docstring out. |
| DocstringLocator.IndentedAtLineStart | tests/test_discover_attributes.py:109-117 | An opening marker indented only by whitespace, at the start of the text or after a line break, starts its line. |
| DocstringLocator.JoinAppend | tests/test_discover_attributes.py:108-113 | Joining two lists of lines joins their texts, so how a text is cut into list elements does not change the result. |
| TestExamples.DoubleQuotedBlock | tests/test_discover_attributes.py:107-146 | The `"""` block on indented lines of its own gives `'Some\ndocstring...'`. |
| TestExamples.SingleQuotedBlock | tests/test_discover_attributes.py:115-147 | The `'''` block with text on its opening line gives `'Another\ndocstring...'`. |
| TestExamples.HoveringBlock | tests/test_discover_attributes.py:121-148 | A closing marker glued to the last text line and followed by whitespace-only lines gives `'A\ndocstring, that\nhovers a bit'`. |
| TestExamples.TwoQuoteOpener | tests/test_discover_attributes.py:129-149 | `'""Almost a docstring"""'` gives `None`. |
| TestExamples.CodeAfterBlock | tests/test_discover_attributes.py:133-150 | `'"""Also almost..."""\n# Nope'` gives `None`. |

## Left out

- `discover_attributes` and its traversal (tests/test_discover_attributes.py:35-98) are not modelled. They load modules, walk the filesystem, resolve runtime values and types, filter private names and modules, and match signatures. That needs the Python runtime and test resources that are not part of this model.
- The `ValueError` raised for a target that is neither a path nor a module (tests/test_discover_attributes.py:100-103) belongs to that traversal and is left out with it.
- The attribute record (name, type, value, doc, comment, visibility) and how the two functions' results are correlated with runtime values are not modelled.
- Characters: whitespace is the ASCII whitespace of Python's `str.isspace()` (space, tab, line feed, vertical tab, form feed, carriage return, and the separators code points 28 to 31), and identifier characters are ASCII letters, digits and `_`. Non-ASCII whitespace and identifier characters (the Unicode classes of Python's `strip` and regular expressions) are not modelled.
- The regular-expression engine is not modelled. The matcher and the locator are deterministic scanners whose accepted language is stated by the reference grammars `Layout` and `Block`.
- A `#` inside a string-literal value is read as the start of the comment, as in a line-level matcher that does not tokenise Python.
- A value starting with `=` is rejected, so that a comparison `x == 2` is never read as an assignment. The one test containing `==` also has a space in the name, so no test separates this rule from the spaced-name rule.
- A `#` followed by nothing but whitespace gives the empty comment `Some("")` rather than `None`. No test pins this case.
- DocstringLocator.BlockIsFound: a docstring whose text begins with its own quote character, such as `""""x"""` (text `"x` in Python), gives `None`. The opener is the nearest marker before the closer, which then lies inside the longer run of quotes and follows a quote, so it does not begin its line. `DocstringLocator.QuoteLedContentRejected` proves this for every such block. No test has such a docstring.
- An empty block (`""""""`) gives `Some("")`. The opening marker is the nearest earlier marker of the closing marker's style, and it must be preceded on its line by whitespace only. No test pins the empty block or a marker that does not start its line.
- The module-level docstring of the test resource behind tests/test_discover_attributes.py:57-58 is not reproduced literally, because that resource is not part of this model. `TrimmedBlockIsFound` states the property it shows: internal line breaks and blank lines are kept.
