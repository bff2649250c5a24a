/** Documents on which the scan's verdict follows from the general facts. */
module ScanExamples {
  import opened JavaStrings
  import opened TagExtractor
  import opened TagParser
  import opened StructureValidator
  import opened StructureProperties

  /** A closing `</script>` followed at once by `<b>` hides the `<b>`: the document is
      valid although `b` is never closed. */
  lemma RawTextSwallowsNextCharacter()
    ensures Verdict("<script></script><b>")
  {
    ScriptThenBold();
    RawTextHidesNextTag("script", "", "b");
  }

  /** The document of `RawTextSwallowsNextCharacter`, built from its parts. */
  lemma ScriptThenBold()
    ensures PlainName("script") && IsSpecialTag(Lower("script")) && PlainName("b")
    ensures RawTextElement("script", "") + OpenTag("b") == "<script></script><b>"
  {
    ScriptIsRawText();
    ScriptThenBoldText();
  }

  /** The text of the document of `RawTextSwallowsNextCharacter`. */
  lemma ScriptThenBoldText()
    ensures RawTextElement("script", "") + OpenTag("b") == "<script></script><b>"
  {
    EmptyScriptText();
    assert OpenTag("b") == "<b>";
  }

  /** An empty `script` element. */
  lemma EmptyScriptText()
    ensures RawTextElement("script", "") == "<script></script>"
  {
    assert Lower("script") == "script";
    ScriptTags();
  }

  /** The opening and closing `script` tags. */
  lemma ScriptTags()
    ensures OpenTag("script") == "<script>" && EndTag("script") == "</script>"
  {
  }

  /** `script` is a plain, lower-case raw-text name. */
  lemma ScriptIsRawText()
    ensures Lower("script") == "script"
    ensures PlainName("script") && IsSpecialTag(Lower("script"))
  {
    assert Lower("script") == "script";
  }

  /** A `<` inside a `script` body is not a tag: the body is skipped up to `</script>`. */
  lemma LessThanInScriptIsText()
    ensures Verdict("<script>a<b</script>")
  {
    ScriptIsRawText();
    ScriptBodyWithLessThan();
    RawTextElementIsValid("script", "a<b");
  }

  /** The body `a<b` holds no `</script>`, and the element is the document above. */
  lemma ScriptBodyWithLessThan()
    ensures EndsOnlyAtEnd("a<b", EndTag(Lower("script")))
    ensures RawTextElement("script", "a<b") == "<script>a<b</script>"
  {
    ScriptIsRawText();
    ScriptTags();
    assert "a<b" + "</script>" == "a<b</script>";
    ScriptEndNotEarly("a<b</script>");
    assert RawTextElement("script", "a<b") == "<script>" + ("a<b" + "</script>");
  }

  /** In `a<b</script>` the closing tag starts at none of the body's three indices. */
  lemma ScriptEndNotEarly(text: string)
    requires text == "a<b</script>"
    ensures forall k :: 0 <= k < 3 ==> !OccursAt(text, "</script>", k)
  {
    forall k | 0 <= k < 3
      ensures !OccursAt(text, "</script>", k)
    {
      assert text[k..k + 9][1] == text[k + 1] != '/';
    }
  }

  /** The same `<b>` on its own is an unclosed element. */
  lemma LoneOpeningTagIsInvalid()
    ensures !Verdict("<b>")
  {
    assert Lower("b") == "b";
    assert PlainName("b") && !IsSelfClosingTag("b") && !IsSpecialTag(Lower("b"));
    UnclosedElementIsInvalid("b", Empty);
    assert OpenTag("b") + Render(Empty) == "<b>";
  }

  /** A void element inside a paragraph, in mixed case, is well nested. */
  lemma VoidInsideParagraph()
    ensures Verdict("<p><BR></P>")
  {
    assert Lower("p") == Lower("P") == "p";
    assert Lower("BR") == "br";
    var m := Element("p", "P", Void("BR", Empty), Empty);
    assert PlainName("p") && PlainName("P") && PlainName("BR");
    assert IsSelfClosingTag("BR");
    assert !IsSelfClosingTag("p");
    assert !IsSpecialTag(Lower("p"));
    assert WellFormed(m);
    assert Render(m) == "<p><BR></P>";
    assert Render(m)[0] == '<';
    WellNestedIsValid(m);
  }

  /** Closing a void element is refused, here with nothing open. */
  lemma ClosedVoidElementIsInvalid()
    ensures !Verdict("</br>")
  {
    ClosingBrText();
    StrayClosingTagIsInvalid(Empty, "br", "");
  }

  /** `</br>` is a closing tag with nothing before or after it. */
  lemma ClosingBrText()
    ensures PlainName("br")
    ensures Render(Empty) + CloseTag("br") + "" == "</br>"
  {
    assert CloseTag("br") == "</br>";
  }

  /** Closing a void element inside an open paragraph is refused too. */
  lemma ClosedVoidInParagraphIsInvalid()
    ensures !Verdict("<p></br></p>")
  {
    ParagraphIsOrdinary();
    BrIsVoid();
    ClosedVoidInParagraphText();
    ClosedVoidInsideElementIsInvalid("p", "br", "</p>");
  }

  /** The document of `ClosedVoidInParagraphIsInvalid`, built from its parts. */
  lemma ClosedVoidInParagraphText()
    ensures OpenTag("p") + (CloseTag("br") + "</p>") == "<p></br></p>"
  {
    ParagraphTags();
    assert CloseTag("br") == "</br>";
    assert "<p>" + ("</br>" + "</p>") == "<p></br></p>";
  }

  /** `br` is a plain void name. */
  lemma BrIsVoid()
    ensures PlainName("br") && IsSelfClosingTag("br")
  {
    assert Lower("br") == "br";
  }

  /** `p` is a plain name of an ordinary element. */
  lemma ParagraphIsOrdinary()
    ensures Lower("p") == "p"
    ensures PlainName("p") && !IsSelfClosingTag("p") && !IsSpecialTag(Lower("p"))
  {
    assert Lower("p") == "p";
  }

  /** A `script` element inside a paragraph makes the document invalid: the `<` of `</p>`
      right after `</script>` is skipped, so the paragraph is never closed. */
  lemma ScriptInParagraphIsInvalid()
    ensures !Verdict("<p><script></script></p>")
  {
    ParagraphIsOrdinary();
    ScriptIsRawText();
    ScriptTags();
    NoTagStartEndsOnlyAtEnd("", EndTag(Lower("script")));
    ScriptInParagraphText();
    RawTextInsideElementIsInvalid("p", "script", "");
  }

  /** The document of `ScriptInParagraphIsInvalid`, built from its parts. */
  lemma ScriptInParagraphText()
    ensures OpenTag("p") + (RawTextElement("script", "") + CloseTag("p")) == "<p><script></script></p>"
  {
    EmptyScriptText();
    ParagraphTags();
    ScriptInParagraphJoined();
  }

  /** The three parts of `<p><script></script></p>` joined. */
  lemma ScriptInParagraphJoined()
    ensures "<p>" + ("<script></script>" + "</p>") == "<p><script></script></p>"
  {
    assert "<script></script>" + "</p>" == "<script></script></p>";
  }

  /** The opening and closing `p` tags. */
  lemma ParagraphTags()
    ensures OpenTag("p") == "<p>" && CloseTag("p") == "</p>"
  {
  }

  /** `<script/>` is not self-closing: it opens a body that no `</script>` ends, and the
      document is refused. */
  lemma SelfClosedScriptIsInvalid()
    ensures !Verdict("<script/>")
  {
    var content := "<script/>";
    ScriptIsRawText();
    assert SelfClosedTag("script") == content;
    assert WrittenAt(content, 0, content);
    assert |EndTag("script")| == 9;
    assert SkipSpecialTagContent(content, 8, "script") == -1;
    SelfClosedRawTextStep(content, 0, "script", [], 8, -1);
    ScanByPass(content, 0, [], false, 0, []);
  }

  /** The apostrophe of `don't` opens a quoted value inside the comment, which hides the
      comment's closing `>`: the tag never ends and the document is refused. */
  lemma QuoteInCommentIsInvalid()
    ensures !Verdict("<!-- don't -->")
  {
    var content := "<!-- don't -->";
    LoneQuoteHidesTagEnd(content, 1, 8);
    ScanByPass(content, 0, [], false, 0, []);
  }

  /** The end of a `script` element is looked for in lower case only, so an upper-case
      element never ends and the document is refused. */
  lemma UpperCaseScriptIsInvalid()
    ensures !Verdict("<SCRIPT></SCRIPT>")
  {
    var content := "<SCRIPT></SCRIPT>";
    UpperCaseScriptName();
    UpperCaseScriptOpenTag(content);
    UpperCaseScriptNeverEnds(content);
    UnterminatedRawTextStep(content, 0, "SCRIPT", []);
    ScanByPass(content, 0, [], false, 0, []);
  }

  /** No lower-case `</script>` occurs in the document of `UpperCaseScriptIsInvalid`. */
  lemma UpperCaseScriptNeverEnds(content: string)
    requires content == "<SCRIPT></SCRIPT>"
    ensures forall k :: 0 <= k ==> !OccursAt(content, EndTag(Lower("SCRIPT")), k)
  {
    UpperCaseScriptLowered();
    ScriptTags();
    NoLowerCaseScriptEnd(content);
  }

  /** The document of `UpperCaseScriptIsInvalid` starts with the opening tag. */
  lemma UpperCaseScriptOpenTag(content: string)
    requires content == "<SCRIPT></SCRIPT>"
    ensures WrittenAt(content, 0, OpenTag("SCRIPT"))
  {
    assert OpenTag("SCRIPT") == content[..8];
  }

  /** `</script>` starts nowhere in `<SCRIPT></SCRIPT>`. */
  lemma NoLowerCaseScriptEnd(content: string)
    requires content == "<SCRIPT></SCRIPT>"
    ensures forall k :: 0 <= k ==> !OccursAt(content, "</script>", k)
  {
    forall k | 0 <= k
      ensures !OccursAt(content, "</script>", k)
    {
      if k + 9 <= |content| {
        assert content[k..k + 9][2] == content[k + 2] != 's';
      }
    }
  }

  /** `SCRIPT` is a plain raw-text name that lower-cases to `script`. */
  lemma UpperCaseScriptName()
    ensures Lower("SCRIPT") == "script" && PlainName("SCRIPT") && IsSpecialTag(Lower("SCRIPT"))
  {
    UpperCaseScriptLowered();
    ScriptIsRawText();
    assert PlainName("SCRIPT");
  }

  /** Lower-casing `SCRIPT` gives `script`. */
  lemma UpperCaseScriptLowered()
    ensures Lower("SCRIPT") == "script"
  {
    assert Lower("SCRIPT") == "script";
  }
}
