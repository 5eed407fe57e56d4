/**
 * Worked examples of the three citation formats, each proved from the
 * general properties in `Citation` and `JsString`. Strings that a formatter
 * has to take apart are written as concatenations of their pieces.
 */
module CitationExamples {
  import opened Wrappers
  import opened JsString
  import opened Page
  import opened Citation

  /** The cited key at position 2 and a key missing from the bibliography: "[2, ?]". */
  lemma ShortCiteExample(pre: Entry, a: Entry)
    ensures InlineCiteShort(["kPre", "kA"], map["kPre" := pre, "kA" := a], ["kA", "kB"]) == "[2, ?]"
  {
    var citations, bibliography := ["kPre", "kA"], map["kPre" := pre, "kA" := a];
    assert citations[..1] == ["kPre"];
    assert CiteNumber(citations, bibliography, "kA") == Decimal(2) == "2";
    assert CiteNumber(citations, bibliography, "kB") == "?";
    var parts := CiteNumbers(citations, bibliography, ["kA", "kB"]);
    assert parts == ["2", "?"];
    assert Join(parts, PartSeparator) == "2" + ", " + "?";
  }

  /** A key that is in the bibliography but was never cited is numbered 0. */
  lemma UncitedKeyIsZero(e: Entry)
    ensures InlineCiteShort(["other"], map["k" := e], ["k"]) == "[0]"
  {
    assert CiteNumber(["other"], map["k" := e], "k") == "0";
    assert CiteNumbers(["other"], map["k" := e], ["k"]) == ["0"];
  }

  // Given names "John  Paul": the empty token between the two spaces gives an empty initial.

  lemma SplitJohnPaul()
    ensures Split("John" + " " + ("" + " " + "Paul"), " ") == ["John", "", "Paul"]
  {
    SeparatorFreeByChar("John", " ", 0);
    SeparatorFreeByChar("", " ", 0);
    SeparatorFreeByChar("Paul", " ", 0);
    SplitFirst("John", " ", "" + " " + "Paul");
    SplitFirst("", " ", "Paul");
    SplitWhole("Paul", " ");
  }

  lemma FirstCharsJohnPaul()
    ensures FirstChars(["John", "", "Paul"]) == ["J", "", "P"]
  {
    TrimTrimmed("John");
    TrimTrimmed("Paul");
    assert FirstChar("John") == "J" && FirstChar("") == "" && FirstChar("Paul") == "P";
  }

  lemma TokensJohnPaul()
    ensures Split(Trim("John" + " " + ("" + " " + "Paul")), " ") == ["John", "", "Paul"]
  {
    var s := "John" + " " + ("" + " " + "Paul");
    assert s[0] == 'J' && s[|s| - 1] == 'l';
    TrimTrimmed(s);
    SplitJohnPaul();
  }

  lemma InitialsDoubleSpace()
    ensures Initials("John" + " " + ("" + " " + "Paul")) == "J..P."
  {
    TokensJohnPaul();
    FirstCharsJohnPaul();
    assert Join(["J", "", "P"], ".") == "J" + "." + ("" + "." + "P");
  }

  // "Smith, John" in a bibliography entry becomes "Smith, J.".

  lemma InitialsJohn()
    ensures Initials(" " + "John" + "") == "J."
  {
    assert Join(["John"], " ") == "John";
    assert Word("John");
    InitialsOfWords(" ", ["John"], "");
    assert InitialsOf(["John"]) == "J" + "." + "";
  }

  lemma TrimSmith()
    ensures Trim("Smith") == "Smith"
  {
    TrimTrimmed("Smith");
  }

  lemma InitialsSpacedJohn()
    ensures Initials(" John") == "J."
  {
    InitialsJohn();
    assert " John" == " " + "John" + "";
  }

  lemma SmithJohnPieces()
    ensures FormatName("Smith" + "," + " John" + "") == Trim("Smith") + ", " + Initials(" John")
  {
    FormatNameGiven("Smith", " John", "");
  }

  lemma SmithJohn()
    ensures FormatName("Smith" + "," + " John" + "") == "Smith, J."
  {
    SmithJohnPieces();
    TrimSmith();
    InitialsSpacedJohn();
    assert "Smith" + ", " + "J." == "Smith, J.";
  }

  // The long form with two and with three authors.

  lemma SurnameSmith()
    ensures Surname("Smith" + "," + " John") == "Smith"
  {
    SurnameBeforeComma("Smith", "," + " John");
    assert "Smith" + ("," + " John") == "Smith" + "," + " John";
    TrimTrimmed("Smith");
  }

  lemma SurnameDoe()
    ensures Surname("Doe" + "," + " Jane") == "Doe"
  {
    SurnameBeforeComma("Doe", "," + " Jane");
    assert "Doe" + ("," + " Jane") == "Doe" + "," + " Jane";
    TrimTrimmed("Doe");
  }

  lemma SurnameRoe()
    ensures Surname("Roe" + "," + " Ann") == "Roe"
  {
    SurnameBeforeComma("Roe", "," + " Ann");
    assert "Roe" + ("," + " Ann") == "Roe" + "," + " Ann";
    TrimTrimmed("Roe");
  }

  lemma TwoAuthorSurnames(author: string)
    requires author == ("Smith" + "," + " John") + AuthorSeparator + ("Doe" + "," + " Jane")
    ensures Surnames(Split(author, AuthorSeparator)) == ["Smith", "Doe"]
  {
    var names := ["Smith" + "," + " John", "Doe" + "," + " Jane"];
    assert Join(names, AuthorSeparator) == names[0] + AuthorSeparator + names[1];
    SeparatorFreeByChar(names[0], AuthorSeparator, 3);
    SeparatorFreeByChar(names[1], AuthorSeparator, 3);
    SeparatorFreeNotContains(names[1], AuthorSeparator);
    AuthorsOfJoin(author, names);
    SurnameSmith();
    SurnameDoe();
  }

  lemma TwoAuthorPart(e: Entry)
    requires e.author == ("Smith" + "," + " John") + AuthorSeparator + ("Doe" + "," + " Jane") && e.year == "2020"
    ensures LongCitePart(map["k" := e], "k") == "Smith" + " & " + "Doe" + ", " + "2020"
  {
    TwoAuthorSurnames(e.author);
  }

  lemma LongCiteTwoAuthors(e: Entry)
    requires e.author == ("Smith" + "," + " John") + AuthorSeparator + ("Doe" + "," + " Jane") && e.year == "2020"
    ensures InlineCiteLong(map["k" := e], ["k"]) == "Smith & Doe, 2020"
  {
    TwoAuthorPart(e);
    InlineCiteLongSingle(map["k" := e], "k");
    assert "Smith" + " & " + "Doe" + ", " + "2020" == "Smith & Doe, 2020";
  }

  lemma ThreeAuthorNames(author: string)
    requires author == ("Smith" + "," + " John") + AuthorSeparator + ("Doe" + "," + " Jane")
                       + AuthorSeparator + ("Roe" + "," + " Ann")
    ensures Split(author, AuthorSeparator) == ["Smith" + "," + " John", "Doe" + "," + " Jane", "Roe" + "," + " Ann"]
  {
    var names := ["Smith" + "," + " John", "Doe" + "," + " Jane", "Roe" + "," + " Ann"];
    assert Join(names[2..], AuthorSeparator) == names[2];
    assert Join(names[1..], AuthorSeparator) == names[1] + AuthorSeparator + names[2];
    assert Join(names, AuthorSeparator) == names[0] + AuthorSeparator + (names[1] + AuthorSeparator + names[2]);
    SeparatorFreeByChar(names[0], AuthorSeparator, 3);
    SeparatorFreeByChar(names[1], AuthorSeparator, 3);
    SeparatorFreeByChar(names[2], AuthorSeparator, 3);
    SeparatorFreeNotContains(names[2], AuthorSeparator);
    AuthorsOfJoin(author, names);
  }

  lemma ThreeAuthorSurnames(author: string)
    requires author == ("Smith" + "," + " John") + AuthorSeparator + ("Doe" + "," + " Jane")
                       + AuthorSeparator + ("Roe" + "," + " Ann")
    ensures Surnames(Split(author, AuthorSeparator)) == ["Smith", "Doe", "Roe"]
  {
    ThreeAuthorNames(author);
    SurnameSmith();
    SurnameDoe();
    SurnameRoe();
  }

  lemma ThreeAuthorPart(e: Entry)
    requires e.author == ("Smith" + "," + " John") + AuthorSeparator + ("Doe" + "," + " Jane")
                         + AuthorSeparator + ("Roe" + "," + " Ann")
    requires e.year == "2020"
    ensures LongCitePart(map["k" := e], "k") == "Smith" + ", et al., " + "2020"
  {
    ThreeAuthorSurnames(e.author);
  }

  lemma LongCiteThreeAuthors(e: Entry)
    requires e.author == ("Smith" + "," + " John") + AuthorSeparator + ("Doe" + "," + " Jane")
                         + AuthorSeparator + ("Roe" + "," + " Ann")
    requires e.year == "2020"
    ensures InlineCiteLong(map["k" := e], ["k"]) == "Smith, et al., 2020"
  {
    ThreeAuthorPart(e);
    InlineCiteLongSingle(map["k" := e], "k");
    assert "Smith" + ", et al., " + "2020" == "Smith, et al., 2020";
  }

  // Names written "First Last", without commas, keep their whole trimmed text.

  lemma SurnameOlah()
    ensures Surname("Chris" + " " + "Olah") == "Chris" + " " + "Olah"
  {
    SurnameBeforeComma("Chris" + " " + "Olah", []);
    assert ("Chris" + " " + "Olah") + [] == "Chris" + " " + "Olah";
    TrimTrimmed("Chris" + " " + "Olah");
  }

  lemma SurnameCarter()
    ensures Surname("Shan" + " " + "Carter") == "Shan" + " " + "Carter"
  {
    SurnameBeforeComma("Shan" + " " + "Carter", []);
    assert ("Shan" + " " + "Carter") + [] == "Shan" + " " + "Carter";
    TrimTrimmed("Shan" + " " + "Carter");
  }

  lemma CommalessSurnames(author: string)
    requires author == ("Chris" + " " + "Olah") + AuthorSeparator + ("Shan" + " " + "Carter")
    ensures Surnames(Split(author, AuthorSeparator)) == ["Chris" + " " + "Olah", "Shan" + " " + "Carter"]
  {
    var names := ["Chris" + " " + "Olah", "Shan" + " " + "Carter"];
    assert Join(names, AuthorSeparator) == names[0] + AuthorSeparator + names[1];
    SeparatorFreeByChar(names[0], AuthorSeparator, 3);
    SeparatorFreeByChar(names[1], AuthorSeparator, 3);
    SeparatorFreeNotContains(names[1], AuthorSeparator);
    AuthorsOfJoin(author, names);
    SurnameOlah();
    SurnameCarter();
  }

  lemma CommalessPart(e: Entry)
    requires e.author == ("Chris" + " " + "Olah") + AuthorSeparator + ("Shan" + " " + "Carter") && e.year == "2016"
    ensures LongCitePart(map["k" := e], "k") == ("Chris" + " " + "Olah") + " & " + ("Shan" + " " + "Carter") + ", " + "2016"
  {
    CommalessSurnames(e.author);
  }

  // A complete journal reference.

  lemma StudyTail(e: Entry)
    requires e == Entry("Smith" + "," + " John", "2020", "A Study", Some("J. Things"), None, Some("5"), Some("2"), None, Some("10-20"))
    ensures ReferenceTail(e) == ", 2020. A Study. " + "J. Things, Vol 5(2)" + ", pp. 10-20. "
  {
    assert Venue(e) == "J. Things";
    assert IssueSuffix(e) == "(2)";
    assert VolumePart(e) == ", Vol 5(2)";
    assert PagesPart(e) == ", pp. 10-20";
    assert ", " + "2020" + ". " + "A Study" + ". " == ", 2020. A Study. ";
    assert "J. Things" + ", Vol 5(2)" == "J. Things, Vol 5(2)";
    assert ", pp. 10-20" + ". " == ", pp. 10-20. ";
  }

  lemma StudyNames(author: string)
    requires author == "Smith" + "," + " John"
    ensures NaturalList(FormatNames(Split(author, AuthorSeparator))) == "Smith, J."
  {
    var names := ["Smith" + "," + " John"];
    SeparatorFreeByChar(names[0], AuthorSeparator, 3);
    SeparatorFreeNotContains(names[0], AuthorSeparator);
    AuthorsOfJoin(author, names);
    assert FormatNames(names) == [FormatName(names[0])];
    assert names[0] == "Smith" + "," + " John" + "";
    SmithJohn();
  }

  lemma StudyExample(e: Entry)
    requires e == Entry("Smith" + "," + " John", "2020", "A Study", Some("J. Things"), None, Some("5"), Some("2"), None, Some("10-20"))
    ensures BibliographyCite(Some(e)) == "Smith, J." + ", 2020. A Study. " + "J. Things, Vol 5(2)" + ", pp. 10-20. "
  {
    BibliographyCiteShape(e);
    StudyNames(e.author);
    StudyTail(e);
  }

  /** An empty `issue` falls back to `number`; when that is absent too, no parentheses follow. */
  lemma IssueFallback(e: Entry)
    requires e.volume == Some("5") && e.issue == Some("") && e.number == None
    ensures VolumePart(e) == ", Vol 5"
  {
  }

  /** An empty `number` is defined, so it still gives "()". */
  lemma EmptyNumberParens(e: Entry)
    requires e.volume == Some("5") && e.issue == None && e.number == Some("")
    ensures VolumePart(e) == ", Vol 5()"
  {
  }

  /** Without journal or booktitle the venue is empty. */
  lemma EmptyVenue(e: Entry)
    requires !Truthy(e.journal) && !Truthy(e.booktitle)
    ensures Venue(e) == ""
  {
  }

  // A marker's key attribute is split on "," without trimming.

  lemma SplitKeysUntrimmed()
    ensures Split("a" + "," + " b", ",") == ["a", " b"]
  {
    SeparatorFreeByChar("a", ",", 0);
    SeparatorFreeByChar(" b", ",", 0);
    SplitFirst("a", ",", " b");
    SplitWhole(" b", ",");
  }

  /** `key="a, b"` looks up "a" and " b"; the second is not a bibliography key. */
  lemma KeysAreNotTrimmed(ea: Entry, eb: Entry)
    ensures CiteContent(["a", "b"], map["a" := ea, "b" := eb], "a" + "," + " b") == "[1, ?]"
  {
    var citations, bibliography := ["a", "b"], map["a" := ea, "b" := eb];
    SplitKeysUntrimmed();
    assert CiteNumber(citations, bibliography, "a") == Decimal(1) == "1";
    assert " b" !in bibliography;
    assert CiteNumber(citations, bibliography, " b") == "?";
    var parts := CiteNumbers(citations, bibliography, ["a", " b"]);
    assert parts == ["1", "?"];
    assert Join(parts, PartSeparator) == "1" + ", " + "?";
  }
}
