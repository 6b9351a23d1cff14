/** The input/output pairs the repository's tests pin down for
    `_match_attribute` and `_find_attribute_docstring`, proved of the model.
    The test strings are assembled from their parts step by step. */
module TestExamples {
  import opened Options
  import opened Text
  import opened AttributeMatcher
  import opened DocstringLocator

  /** A bare assignment: name and value trimmed, no type, no comment. */
  lemma BareAssignment()
    ensures MatchAttribute("  some_attr   =     2  ")
         == Some(Match("some_attr", None, "2", None))
  {
    BareAssignmentLayout();
    LayoutIsMatched(Match("some_attr", None, "2", None), Spacing("  ", "   ", "", "", "     ", "", "", "  "));
  }

  lemma BareAssignmentLayout()
    ensures Layout(Match("some_attr", None, "2", None), Spacing("  ", "   ", "", "", "     ", "", "", "  "))
         == "  some_attr   =     2  "
  {
    IndentedName();
    assert "  some_attr" + "   " == "  some_attr   ";
    assert "  some_attr   " + "" == "  some_attr   ";
    assert "  some_attr   " + "=" == "  some_attr   =";
    assert "  some_attr   =" + "     " == "  some_attr   =     ";
    assert "  some_attr   =     " + "2" == "  some_attr   =     2";
    assert "  some_attr   =     2" + "" == "  some_attr   =     2";
    assert "  some_attr   =     2" + "  " == "  some_attr   =     2  ";
  }

  /** A colon-introduced type is captured and trimmed. */
  lemma TypedAssignment()
    ensures MatchAttribute("  some_attr  :  int  =   2  ")
         == Some(Match("some_attr", Some("int"), "2", None))
  {
    TypedAssignmentLayout();
    LayoutIsMatched(Match("some_attr", Some("int"), "2", None), Spacing("  ", "  ", "  ", "  ", "   ", "", "", "  "));
  }

  lemma TypedAssignmentLayout()
    ensures Layout(Match("some_attr", Some("int"), "2", None), Spacing("  ", "  ", "  ", "  ", "   ", "", "", "  "))
         == "  some_attr  :  int  =   2  "
  {
    assert ":" + "  " == ":  ";
    assert ":  " + "int" == ":  int";
    assert ":  int" + "  " == ":  int  ";
    IndentedName();
    assert "  some_attr" + "  " == "  some_attr  ";
    assert "  some_attr  " + ":  int  " == "  some_attr  :  int  ";
    assert "  some_attr  :  int  " + "=" == "  some_attr  :  int  =";
    assert "  some_attr  :  int  =" + "   " == "  some_attr  :  int  =   ";
    assert "  some_attr  :  int  =   " + "2" == "  some_attr  :  int  =   2";
    assert "  some_attr  :  int  =   2" + "" == "  some_attr  :  int  =   2";
    assert "  some_attr  :  int  =   2" + "  " == "  some_attr  :  int  =   2  ";
  }

  /** A trailing comment is captured and trimmed, its inner spaces kept. */
  lemma TypedAssignmentWithComment()
    ensures MatchAttribute("  some_attr  :  int  =   2  #   bla bla bla!   ")
         == Some(Match("some_attr", Some("int"), "2", Some("bla bla bla!")))
  {
    TypedAssignmentWithCommentLayout();
    LayoutIsMatched(Match("some_attr", Some("int"), "2", Some("bla bla bla!")), Spacing("  ", "  ", "  ", "  ", "   ", "  ", "   ", "   "));
  }

  lemma TypedAssignmentWithCommentLayout()
    ensures Layout(Match("some_attr", Some("int"), "2", Some("bla bla bla!")), Spacing("  ", "  ", "  ", "  ", "   ", "  ", "   ", "   "))
         == "  some_attr  :  int  =   2  #   bla bla bla!   "
  {
    assert ":" + "  " == ":  ";
    assert ":  " + "int" == ":  int";
    assert ":  int" + "  " == ":  int  ";
    assert "  " + "#" == "  #";
    assert "  #" + "   " == "  #   ";
    CommentMarkerAndText();
    IndentedName();
    assert "  some_attr" + "  " == "  some_attr  ";
    assert "  some_attr  " + ":  int  " == "  some_attr  :  int  ";
    assert "  some_attr  :  int  " + "=" == "  some_attr  :  int  =";
    assert "  some_attr  :  int  =" + "   " == "  some_attr  :  int  =   ";
    assert "  some_attr  :  int  =   " + "2" == "  some_attr  :  int  =   2";
    CommentedLine();
    assert "  some_attr  :  int  =   2  #   bla bla bla!" + "   " == "  some_attr  :  int  =   2  #   bla bla bla!   ";
  }

  lemma CommentMarkerAndText()
    ensures "  #   " + "bla bla bla!"
         == "  #   bla bla bla!"
  {
    assert "  #   " + "bla bla " == "  #   bla bla ";
    assert "bla bla " + "bla!" == "bla bla bla!";
    AppendAssoc("  #   ", "bla bla ", "bla!");
    assert "  #   bla bla " + "bla!" == "  #   bla bla bla!";
  }

  lemma CommentedLine()
    ensures "  some_attr  :  int  =   2" + "  #   bla bla bla!"
         == "  some_attr  :  int  =   2  #   bla bla bla!"
  {
    assert "  some_attr  :  int  =   2" + "  #   bl" == "  some_attr  :  int  =   2  #   bl";
    assert "  #   bl" + "a bla bl" == "  #   bla bla bl";
    AppendAssoc("  some_attr  :  int  =   2", "  #   bl", "a bla bl");
    assert "  some_attr  :  int  =   2  #   bl" + "a bla bl" == "  some_attr  :  int  =   2  #   bla bla bl";
    assert "  #   bla bla bl" + "a!" == "  #   bla bla bla!";
    AppendAssoc("  some_attr  :  int  =   2", "  #   bla bla bl", "a!");
    assert "  some_attr  :  int  =   2  #   bla bla bl" + "a!" == "  some_attr  :  int  =   2  #   bla bla bla!";
  }

  /** The indented name shared by the first four test lines. */
  lemma IndentedName()
    ensures "  " + "some_attr"
         == "  some_attr"
  {
    assert "  " + "some_att" == "  some_att";
    assert "some_att" + "r" == "some_attr";
    AppendAssoc("  ", "some_att", "r");
    assert "  some_att" + "r" == "  some_attr";
  }

  /** A type without its colon is no match. */
  lemma TypeWithoutColon()
    ensures MatchAttribute("  some_attr    int  =   2  #   bla bla bla!   ") == None
  {
    TypeWithoutColonLine();
    WordAfterNameRejected("  ", "some_attr", "    ", "int  =   2  #   bla bla bla!   ");
  }

  lemma TypeWithoutColonLine()
    ensures "  " + "some_attr" + "    " + "int  =   2  #   bla bla bla!   "
         == "  some_attr    int  =   2  #   bla bla bla!   "
  {
    IndentedName();
    assert "  some_attr" + "    " == "  some_attr    ";
    TypeWithoutColonRest();
  }

  lemma TypeWithoutColonRest()
    ensures "  some_attr    " + "int  =   2  #   bla bla bla!   "
         == "  some_attr    int  =   2  #   bla bla bla!   "
  {
    assert "  some_attr    " + "int  =  " == "  some_attr    int  =  ";
    assert "int  =  " + " 2  #   " == "int  =   2  #   ";
    AppendAssoc("  some_attr    ", "int  =  ", " 2  #   ");
    assert "  some_attr    int  =  " + " 2  #   " == "  some_attr    int  =   2  #   ";
    assert "int  =   2  #   " + "bla bla " == "int  =   2  #   bla bla ";
    AppendAssoc("  some_attr    ", "int  =   2  #   ", "bla bla ");
    assert "  some_attr    int  =   2  #   " + "bla bla " == "  some_attr    int  =   2  #   bla bla ";
    assert "int  =   2  #   bla bla " + "bla!   " == "int  =   2  #   bla bla bla!   ";
    AppendAssoc("  some_attr    ", "int  =   2  #   bla bla ", "bla!   ");
    assert "  some_attr    int  =   2  #   bla bla " + "bla!   " == "  some_attr    int  =   2  #   bla bla bla!   ";
  }

  /** A name with a space in it is no match. */
  lemma NameWithSpace()
    ensures MatchAttribute("  some attr     =   2  #   bla bla bla!   ") == None
  {
    NameWithSpaceLine();
    WordAfterNameRejected("  ", "some", " ", "attr     =   2  #   bla bla bla!   ");
  }

  lemma NameWithSpaceLine()
    ensures "  " + "some" + " " + "attr     =   2  #   bla bla bla!   "
         == "  some attr     =   2  #   bla bla bla!   "
  {
    assert "  " + "some" == "  some";
    assert "  some" + " " == "  some ";
    NameWithSpaceRest();
  }

  lemma NameWithSpaceRest()
    ensures "  some " + "attr     =   2  #   bla bla bla!   "
         == "  some attr     =   2  #   bla bla bla!   "
  {
    assert "  some " + "attr    " == "  some attr    ";
    assert "attr    " + " =   2  " == "attr     =   2  ";
    AppendAssoc("  some ", "attr    ", " =   2  ");
    assert "  some attr    " + " =   2  " == "  some attr     =   2  ";
    assert "attr     =   2  " + "#   bla " == "attr     =   2  #   bla ";
    AppendAssoc("  some ", "attr     =   2  ", "#   bla ");
    assert "  some attr     =   2  " + "#   bla " == "  some attr     =   2  #   bla ";
    assert "attr     =   2  #   bla " + "bla bla!" == "attr     =   2  #   bla bla bla!";
    AppendAssoc("  some ", "attr     =   2  #   bla ", "bla bla!");
    assert "  some attr     =   2  #   bla " + "bla bla!" == "  some attr     =   2  #   bla bla bla!";
    assert "attr     =   2  #   bla bla bla!" + "   " == "attr     =   2  #   bla bla bla!   ";
    AppendAssoc("  some ", "attr     =   2  #   bla bla bla!", "   ");
    assert "  some attr     =   2  #   bla bla bla!" + "   " == "  some attr     =   2  #   bla bla bla!   ";
  }

  /** A comparison whose left side has a space in it is no match. */
  lemma ComparisonWithSpacedName()
    ensures MatchAttribute("some attr == 2") == None
  {
    ComparisonWithSpacedNameLine();
    WordAfterNameRejected("", "some", " ", "attr == 2");
  }

  lemma ComparisonWithSpacedNameLine()
    ensures "" + "some" + " " + "attr == 2"
         == "some attr == 2"
  {
    assert "" + "some" == "some";
    assert "some" + " " == "some ";
    ComparisonWithSpacedNameRest();
  }

  lemma ComparisonWithSpacedNameRest()
    ensures "some " + "attr == 2"
         == "some attr == 2"
  {
    assert "some " + "attr == " == "some attr == ";
    assert "attr == " + "2" == "attr == 2";
    AppendAssoc("some ", "attr == ", "2");
    assert "some attr == " + "2" == "some attr == 2";
  }

  /** Markers on their own indented lines; the blank first content line is dropped. */
  lemma DoubleQuotedBlock()
    ensures FindAttributeDocstring(["    \"\"\"   \n", "\n", "Some\ndocstring...\n", "   \"\"\"     \n"])
         == Some("Some\ndocstring...")
  {
    DoubleQuotedBlockText();
    assert "" + "    " == "    ";
    IndentedAtLineStart("", "    ");
    TrimmedBlockIsFound("    ", DoubleQuotes, "   \n\n", "Some\ndocstring...", "\n   ", "     \n");
  }

  lemma DoubleQuotedBlockText()
    ensures Join(["    \"\"\"   \n", "\n", "Some\ndocstring...\n", "   \"\"\"     \n"])
         == "    " + Marker(DoubleQuotes) + "   \n\n" + "Some\ndocstring..." + "\n   " + Marker(DoubleQuotes) + "     \n"
  {
    DoubleQuotedBlockLines();
    DoubleQuotedBlockPieces();
  }

  lemma DoubleQuotedBlockPieces()
    ensures "    " + Marker(DoubleQuotes) + "   \n\n" + "Some\ndocstring..." + "\n   " + Marker(DoubleQuotes) + "     \n"
         == "    \"\"\"   \n\nSome\ndocstring...\n   \"\"\"     \n"
  {
    assert Marker(DoubleQuotes) == "\"\"\"";
    assert "    " + "\"\"\"" == "    \"\"\"";
    assert "    \"\"\"" + "   \n\n" == "    \"\"\"   \n\n";
    DoubleQuotedContent();
    assert "    \"\"\"   \n\nSome\ndocstring..." + "\n   " == "    \"\"\"   \n\nSome\ndocstring...\n   ";
    assert "    \"\"\"   \n\nSome\ndocstring...\n   " + "\"\"\"" == "    \"\"\"   \n\nSome\ndocstring...\n   \"\"\"";
    assert "    \"\"\"   \n\nSome\ndocstring...\n   \"\"\"" + "     \n" == "    \"\"\"   \n\nSome\ndocstring...\n   \"\"\"     \n";
  }

  lemma DoubleQuotedBlockLines()
    ensures Join(["    \"\"\"   \n", "\n", "Some\ndocstring...\n", "   \"\"\"     \n"]) == "    \"\"\"   \n\nSome\ndocstring...\n   \"\"\"     \n"
  {
    Join4("    \"\"\"   \n", "\n", "Some\ndocstring...\n", "   \"\"\"     \n");
    assert "    \"\"\"   \n" + "\n" == "    \"\"\"   \n\n";
    assert "    \"\"\"   \n\n" + "Some\ndocstring...\n" == "    \"\"\"   \n\nSome\ndocstring...\n";
    assert "    \"\"\"   \n\nSome\ndocstring...\n" + "   \"\"\"     \n" == "    \"\"\"   \n\nSome\ndocstring...\n   \"\"\"     \n";
  }

  lemma DoubleQuotedContent()
    ensures "    \"\"\"   \n\n" + "Some\ndocstring..."
         == "    \"\"\"   \n\nSome\ndocstring..."
  {
    assert "    \"\"\"   \n\n" + "Some\ndoc" == "    \"\"\"   \n\nSome\ndoc";
    assert "Some\ndoc" + "string.." == "Some\ndocstring..";
    AppendAssoc("    \"\"\"   \n\n", "Some\ndoc", "string..");
    assert "    \"\"\"   \n\nSome\ndoc" + "string.." == "    \"\"\"   \n\nSome\ndocstring..";
    assert "Some\ndocstring.." + "." == "Some\ndocstring...";
    AppendAssoc("    \"\"\"   \n\n", "Some\ndocstring..", ".");
    assert "    \"\"\"   \n\nSome\ndocstring.." + "." == "    \"\"\"   \n\nSome\ndocstring...";
  }

  /** The `'''` style; text on the opening line becomes the first content line. */
  lemma SingleQuotedBlock()
    ensures FindAttributeDocstring(["    '''   Another\n", "docstring...\n", "   '''     \n"])
         == Some("Another\ndocstring...")
  {
    SingleQuotedBlockText();
    assert "" + "    " == "    ";
    IndentedAtLineStart("", "    ");
    TrimmedBlockIsFound("    ", SingleQuotes, "   ", "Another\ndocstring...", "\n   ", "     \n");
  }

  lemma SingleQuotedBlockText()
    ensures Join(["    '''   Another\n", "docstring...\n", "   '''     \n"])
         == "    " + Marker(SingleQuotes) + "   " + "Another\ndocstring..." + "\n   " + Marker(SingleQuotes) + "     \n"
  {
    SingleQuotedBlockLines();
    SingleQuotedBlockPieces();
  }

  lemma SingleQuotedBlockPieces()
    ensures "    " + Marker(SingleQuotes) + "   " + "Another\ndocstring..." + "\n   " + Marker(SingleQuotes) + "     \n"
         == "    '''   Another\ndocstring...\n   '''     \n"
  {
    assert Marker(SingleQuotes) == "'''";
    assert "    " + "'''" == "    '''";
    assert "    '''" + "   " == "    '''   ";
    SingleQuotedContent();
    assert "    '''   Another\ndocstring..." + "\n   " == "    '''   Another\ndocstring...\n   ";
    assert "    '''   Another\ndocstring...\n   " + "'''" == "    '''   Another\ndocstring...\n   '''";
    assert "    '''   Another\ndocstring...\n   '''" + "     \n" == "    '''   Another\ndocstring...\n   '''     \n";
  }

  lemma SingleQuotedBlockLines()
    ensures Join(["    '''   Another\n", "docstring...\n", "   '''     \n"]) == "    '''   Another\ndocstring...\n   '''     \n"
  {
    Join3("    '''   Another\n", "docstring...\n", "   '''     \n");
    assert "    '''   Another\n" + "docstring...\n" == "    '''   Another\ndocstring...\n";
    assert "    '''   Another\ndocstring...\n" + "   '''     \n" == "    '''   Another\ndocstring...\n   '''     \n";
  }

  lemma SingleQuotedContent()
    ensures "    '''   " + "Another\ndocstring..."
         == "    '''   Another\ndocstring..."
  {
    assert "    '''   " + "Another\n" == "    '''   Another\n";
    assert "Another\n" + "docstrin" == "Another\ndocstrin";
    AppendAssoc("    '''   ", "Another\n", "docstrin");
    assert "    '''   Another\n" + "docstrin" == "    '''   Another\ndocstrin";
    assert "Another\ndocstrin" + "g..." == "Another\ndocstring...";
    AppendAssoc("    '''   ", "Another\ndocstrin", "g...");
    assert "    '''   Another\ndocstrin" + "g..." == "    '''   Another\ndocstring...";
  }

  /** A closing marker glued to a text line, followed by whitespace-only lines. */
  lemma HoveringBlock()
    ensures FindAttributeDocstring(["\"\"\"A\n", "docstring, that\n", "hovers a bit\"\"\"\n", " \n", " \n"])
         == Some("A\ndocstring, that\nhovers a bit")
  {
    HoveringBlockText();
    TrimmedBlockIsFound("", DoubleQuotes, "", "A\ndocstring, that\nhovers a bit", "", "\n \n \n");
  }

  lemma HoveringBlockText()
    ensures Join(["\"\"\"A\n", "docstring, that\n", "hovers a bit\"\"\"\n", " \n", " \n"])
         == "" + Marker(DoubleQuotes) + "" + "A\ndocstring, that\nhovers a bit" + "" + Marker(DoubleQuotes) + "\n \n \n"
  {
    HoveringBlockLines();
    HoveringBlockPieces();
  }

  lemma HoveringBlockPieces()
    ensures "" + Marker(DoubleQuotes) + "" + "A\ndocstring, that\nhovers a bit" + "" + Marker(DoubleQuotes) + "\n \n \n"
         == "\"\"\"A\ndocstring, that\nhovers a bit\"\"\"\n \n \n"
  {
    assert Marker(DoubleQuotes) == "\"\"\"";
    assert "" + "\"\"\"" == "\"\"\"";
    assert "\"\"\"" + "" == "\"\"\"";
    HoveringContent();
    assert "\"\"\"A\ndocstring, that\nhovers a bit" + "" == "\"\"\"A\ndocstring, that\nhovers a bit";
    assert "\"\"\"A\ndocstring, that\nhovers a bit" + "\"\"\"" == "\"\"\"A\ndocstring, that\nhovers a bit\"\"\"";
    assert "\"\"\"A\ndocstring, that\nhovers a bit\"\"\"" + "\n \n \n" == "\"\"\"A\ndocstring, that\nhovers a bit\"\"\"\n \n \n";
  }

  lemma HoveringBlockLines()
    ensures Join(["\"\"\"A\n", "docstring, that\n", "hovers a bit\"\"\"\n", " \n", " \n"]) == "\"\"\"A\ndocstring, that\nhovers a bit\"\"\"\n \n \n"
  {
    Join5("\"\"\"A\n", "docstring, that\n", "hovers a bit\"\"\"\n", " \n", " \n");
    assert "\"\"\"A\n" + "docstring, that\n" == "\"\"\"A\ndocstring, that\n";
    assert "\"\"\"A\ndocstring, that\n" + "hovers a bit\"\"\"\n" == "\"\"\"A\ndocstring, that\nhovers a bit\"\"\"\n";
    assert "\"\"\"A\ndocstring, that\nhovers a bit\"\"\"\n" + " \n" == "\"\"\"A\ndocstring, that\nhovers a bit\"\"\"\n \n";
    assert "\"\"\"A\ndocstring, that\nhovers a bit\"\"\"\n \n" + " \n" == "\"\"\"A\ndocstring, that\nhovers a bit\"\"\"\n \n \n";
  }

  lemma HoveringContent()
    ensures "\"\"\"" + "A\ndocstring, that\nhovers a bit"
         == "\"\"\"A\ndocstring, that\nhovers a bit"
  {
    assert "\"\"\"" + "A\ndocstr" == "\"\"\"A\ndocstr";
    assert "A\ndocstr" + "ing, tha" == "A\ndocstring, tha";
    AppendAssoc("\"\"\"", "A\ndocstr", "ing, tha");
    assert "\"\"\"A\ndocstr" + "ing, tha" == "\"\"\"A\ndocstring, tha";
    assert "A\ndocstring, tha" + "t\nhovers" == "A\ndocstring, that\nhovers";
    AppendAssoc("\"\"\"", "A\ndocstring, tha", "t\nhovers");
    assert "\"\"\"A\ndocstring, tha" + "t\nhovers" == "\"\"\"A\ndocstring, that\nhovers";
    assert "A\ndocstring, that\nhovers" + " a bit" == "A\ndocstring, that\nhovers a bit";
    AppendAssoc("\"\"\"", "A\ndocstring, that\nhovers", " a bit");
    assert "\"\"\"A\ndocstring, that\nhovers" + " a bit" == "\"\"\"A\ndocstring, that\nhovers a bit";
  }

  /** An opener of two quote characters opens nothing. */
  lemma TwoQuoteOpener()
    ensures FindAttributeDocstring(["\"\"Almost a docstring\"\"\""]) == None
  {
    Join1("\"\"Almost a docstring\"\"\"");
    assert Marker(DoubleQuotes) == "\"\"\"";
    assert "\"\"" + "Almost a docstring" == "\"\"Almost a docstring";
    assert "\"\"Almost a docstring" + "\"\"\"" == "\"\"Almost a docstring\"\"\"";
    assert "\"\"Almost a docstring\"\"\"" + "" == "\"\"Almost a docstring\"\"\"";
    UnopenedBlockRejected("\"\"", DoubleQuotes, "Almost a docstring", "");
  }

  /** Code after the closing marker rules the block out. */
  lemma CodeAfterBlock()
    ensures FindAttributeDocstring(["\"\"\"Also almost...\"\"\"\n# Nope"]) == None
  {
    var text := "\"\"\"Also almost...\"\"\"\n# Nope";
    Join1(text);
    assert text + "" == text;
    TrailingTextRejected(text, "");
  }

  lemma AppendAssoc(a: string, b: string, c: string)
    ensures a + (b + c) == a + b + c
  {
  }

  lemma Join1(a: string)
    ensures Join([a]) == a
  {
    JoinSnoc([], a);
    assert [] + [a] == [a];
  }

  lemma Join3(a: string, b: string, c: string)
    ensures Join([a, b, c]) == a + b + c
  {
    Join1(a);
    JoinSnoc([a], b);
    assert [a] + [b] == [a, b];
    JoinSnoc([a, b], c);
    assert [a, b] + [c] == [a, b, c];
  }

  lemma Join4(a: string, b: string, c: string, d: string)
    ensures Join([a, b, c, d]) == a + b + c + d
  {
    Join3(a, b, c);
    JoinSnoc([a, b, c], d);
    assert [a, b, c] + [d] == [a, b, c, d];
  }

  lemma Join5(a: string, b: string, c: string, d: string, e: string)
    ensures Join([a, b, c, d, e]) == a + b + c + d + e
  {
    Join4(a, b, c, d);
    JoinSnoc([a, b, c, d], e);
    assert [a, b, c, d] + [e] == [a, b, c, d, e];
  }
}
