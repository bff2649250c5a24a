# HTML structure validator, modelled in Dafny

This project models the core of a small Java HTML structure checker. The checker decides, in
one left-to-right pass over a document held in memory, whether its tags nest properly.

It works as follows:
- Text outside tags is stepped over.
- A `<` starts a tag. The tag ends at the first `>` that lies outside every single- or
  double-quoted value.
- Comments (`<!--`), doctypes (`<!DOCTYPE`, in any case) and processing instructions (`<?`)
  are ignored once delimited. They are delimited like any other tag, so an unmatched quote
  inside a comment hides the comment's closing `>`, and a `>` inside a comment ends it early.
- The body of a `script` or `style` element is skipped up to the literal, lower-case
  `</script>` or `</style>`.
- Void elements (`br`, `img`, …) change nothing, and so do tags written `<name/>` when the
  name is not `script` or `style`. `<script/>` and `<style/>` start a raw-text body like an
  opening tag.
- Opening tags push their lower-cased name on a hand-written linked stack. Closing tags pop it
  and must match.
- The document is valid when it is not blank, every tag is accepted and no tag is left open.
  Before the document is read, its path must end in `.html` or `.htm`, in any case.

The modules follow the Java classes:

| module | file | models |
|---|---|---|
| `Wrappers` | `wrappers.dfy` | `Option`, `Result` and `Outcome` types for null paths and exceptions |
| `JavaStrings` | `java_strings.dfy` | the `String` and `Character` operations used, over ASCII |
| `Stack` | `stack.dfy` | `Node` and `MyStack`, as classes over heap nodes with a ghost `Contents` sequence (top first) |
| `TagExtractor` | `tag_extractor.dfy` | `HtmlTagExtractor`: tag names, ignorable tags, void and raw-text names |
| `TagParser` | `tag_parser.dfy` | `HtmlTagParser`: the quote-aware `>` search and the raw-text skip |
| `TagStack` | `tag_stack.dfy` | `TagStackProcessor` as a class, plus the pure `TagTransition` it is proved against |
| `FileValidator` | `file_validator.dfy` | `HtmlFileValidator`: the extension check |
| `StructureValidator` | `structure_validator.dfy` | `HtmlStructureValidator`: the scan loop as a method, and its specification `ScanFrom` / `Verdict` |
| `StructureProperties` | `structure_properties.dfy` | what the scan does tag by tag, and for whole documents of the `Markup` grammar |
| `ScanExamples` | `scan_examples.dfy` | concrete documents, including the quirks below |

Whole-document properties are proved for the documents of the `Markup` grammar
(`StructureProperties.WellFormed`). These are built from:
- text without `<`;
- elements without attributes, whose name is neither void nor `script` or `style`, closed by
  the same name in any case;
- void tags such as `<br>`;
- `<name/>` tags for names other than `script` and `style`;
- comments whose body holds no quote and no `>`.
Names are ASCII letters and digits, starting with a letter. These documents are called
grammar documents below.

The scan loop `validateHtmlStructure` is the method `ValidateHtmlStructure`. Its `while` loop
keeps the invariant `Verdict(content) == ScanFrom(content, i, Tags())`. `ScanFrom` is the
specification: one pass of the loop at a time (`StepAt`, `TagStep`), until the end, where no
tag may be left open.

The model reproduces six quirks of the Java code:
- The raw-text skip looks for the lower-cased name, so `<SCRIPT></SCRIPT>` is refused
  (`ScanExamples.UpperCaseScriptIsInvalid`).
- After a raw-text skip the loop's own `i++` steps over one more character. That character is
  never examined, so `<script></script><b>` is accepted although `b` is never closed
  (`StructureProperties.RawTextHidesNextTag`, `ScanExamples.RawTextSwallowsNextCharacter`).
- Quotes have no escape character (`TagParser.BackslashDoesNotEscape`).
- The raw-text test only looks for a leading `/`, so `<script/>` opens a raw-text body that
  nothing closes, and the document is refused (`StructureProperties.SelfClosedRawTextStep`,
  `ScanExamples.SelfClosedScriptIsInvalid`).
- Comments go through the quote-aware `>` search. The apostrophe in `<!-- don't -->` opens a
  quoted value that never closes, so the tag has no end and the document is refused
  (`TagParser.LoneQuoteHidesTagEnd`, `ScanExamples.QuoteInCommentIsInvalid`).
- The character skipped after a raw-text element also breaks nesting. In
  `<p><script></script></p>` it is the `<` of `</p>`, so the paragraph is never closed and the
  document is refused (`StructureProperties.RawTextInsideElementIsInvalid`,
  `ScanExamples.ScriptInParagraphIsInvalid`).

## Model

| member | source | states |
|---|---|---|
| Stack.Node.constructor | src/utils/stack/Node.java:7-9 | a new node holds the value and has no successor |
| Stack.Node.Linked | src/utils/stack/Node.java:11-14 | a node built with a successor holds both as given |
| Stack.Node.GetValue | src/utils/stack/Node.java:16-18 | returns the value fixed at construction |
| Stack.Node.GetNext | src/utils/stack/Node.java:20-22 | returns the current successor |
| Stack.Node.SetNext | src/utils/stack/Node.java:24-26 | changes only the successor link, which then reads back as set |
| Stack.MyStack.constructor | src/utils/stack/MyStack.java:3-4 | a new stack is well-linked and empty |
| Stack.MyStack.Push | src/utils/stack/MyStack.java:6-12 | the new contents are the value on top of the old contents, and the links stay well formed |
| Stack.MyStack.Pop | src/utils/stack/MyStack.java:14-21 | on a non-empty stack, returns the old top and leaves exactly the old contents below it |
| Stack.MyStack.IsEmpty | src/utils/stack/MyStack.java:23-25 | holds exactly when the contents are empty |
| Stack.MyStack.Peek | src/utils/stack/MyStack.java:27-32 | on a non-empty stack, returns the top and changes nothing |
| Stack.PushThenPop | src/utils/stack/MyStack.java:6-21 | a pop right after a push returns the pushed value and restores the previous contents |
| TagStack.ContainsInvalidCharacters | src/core/TagStackProcessor.java:78-80 | a name is malformed when it holds `<` or `>`; `LowerKeepsAcceptance` relates it to lower-casing |
| TagStack.IsAcceptableName | src/core/TagStackProcessor.java:23 | the stack accepts a name only when it is non-empty and well formed; `TransitionKeepsNamesAcceptable` keeps this for every name on the stack |
| TagStack.LowerKeepsAcceptance | src/core/TagStackProcessor.java:23 | lower-casing a name, as the validator does before the stack sees it, neither makes it malformed or empty nor repairs it |
| TagStack.TagTransition | src/core/TagStackProcessor.java:21-50 | only acceptable names are accepted; a self-closing tag keeps the stack and is refused when written as a closing tag; an accepted closing tag names the innermost open tag and pops it, and one that names something else is refused; an opening tag with an acceptable name is accepted and pushes it |
| TagStack.TransitionKeepsNamesAcceptable | src/core/TagStackProcessor.java:21-50 | every name on the stack is non-empty and free of `<` and `>`, before and after any tag |
| TagStack.OpenThenCloseRestores | src/core/TagStackProcessor.java:40-49 | an opening tag followed by its closing tag is accepted twice and restores the stack |
| TagStack.TransitionMovesByOne | src/core/TagStackProcessor.java:21-50 | one tag pushes one name, pops one name, or leaves the stack as it was |
| TagStack.TagStackProcessor.constructor | src/core/TagStackProcessor.java:11 | a new processor has no open tags |
| TagStack.TagStackProcessor.ProcessTag | src/core/TagStackProcessor.java:21-50 | a bad name is refused and the stack is kept; a self-closing tag is accepted unless written as a closing tag, and the stack is kept; a closing tag on an empty stack is refused; otherwise a closing tag pops one name and is accepted exactly when it matches; an opening tag pushes its name |
| TagStack.TagStackProcessor.GetRemainingUnclosedTags | src/core/TagStackProcessor.java:57-64 | returns the open names innermost first and leaves the stack empty |
| TagStack.TagStackProcessor.IsStackEmpty | src/core/TagStackProcessor.java:71-73 | holds exactly when no tag is open |
| TagExtractor.ShouldIgnoreTag | src/utils/HtmlTagExtractor.java:59-63 | an ignored tag's text starts with `!` or `?`: only the comment, doctype and processing-instruction prefixes are ignored |
| TagExtractor.VoidNamesAreLowerCase | src/utils/HtmlTagExtractor.java:7-9 | every void-element name is written in lower case, so the lookup of a lower-cased name finds it in any case |
| TagExtractor.IsSelfClosingTag | src/utils/HtmlTagExtractor.java:74-76 | a name is void exactly when it equals one of the listed void-element names, ignoring case |
| TagExtractor.IsSpecialTag | src/utils/HtmlTagExtractor.java:87-90 | a name is a raw-text name exactly when it lower-cases to `script` or `style` |
| TagExtractor.IsNameDelimiter | src/utils/HtmlTagExtractor.java:40 | whitespace, `>` and `/` end a tag name; `ExtractTagName` states the name stops at the first of them |
| TagExtractor.ExtractTagName | src/utils/HtmlTagExtractor.java:29-48 | the result is a prefix of the input, as written, with no whitespace, `>` or `/` in it, and it stops only at such a delimiter or at the end |
| TagExtractor.ExtractTagNameWhole | src/utils/HtmlTagExtractor.java:36-47 | the whole input is the name exactly when it holds no delimiter |
| TagExtractor.DoctypeIgnoredInAnyCase | src/utils/HtmlTagExtractor.java:59-63 | a tag starting with `!DOCTYPE` in any case is ignored |
| TagExtractor.CommentPrefixNeedsBothDashes | src/utils/HtmlTagExtractor.java:59-63 | `!-x` is not ignored, and `!-- x --` is |
| TagExtractor.OrdinaryTagNotIgnored | src/utils/HtmlTagExtractor.java:59-63 | a tag starting with a letter, a digit or `/` is never ignored |
| TagExtractor.SelfClosingIgnoresCase | src/utils/HtmlTagExtractor.java:74-76 | void-element membership does not depend on case |
| TagExtractor.SpecialTagIsScriptOrStyle | src/utils/HtmlTagExtractor.java:87-90 | a name is a raw-text name exactly when it lower-cases to `script` or `style`, and this does not depend on case |
| TagExtractor.VoidAndRawTextDisjoint | src/utils/HtmlTagExtractor.java:7-18 | no name is both a void element and a raw-text element |
| TagParser.AfterChar | src/core/HtmlTagParser.java:22-32 | `"` toggles double quotes unless inside single quotes, `'` toggles single quotes unless inside double quotes, and nothing else changes the state; `NeverInBothQuotes` and `QuotesUnchangedWithoutQuoteChars` state this |
| TagParser.QuotesBefore | src/core/HtmlTagParser.java:15-32 | the two flags of the loop after reading the text from the start index up to an index; the loop in `FindTagClosingBracket` is proved to keep them equal to it |
| TagParser.TagEnd | src/core/HtmlTagParser.java:13-42 | the tag's end is -1 or a `>` at or after the start; it is the reference `FindTagClosingBracket` is proved against |
| TagParser.FirstTagEnd | src/core/HtmlTagParser.java:19-41 | the first unquoted `>` from an index on, or -1 exactly when there is none |
| TagParser.FindTagClosingBracket | src/core/HtmlTagParser.java:13-42 | returns -1 exactly when no `>` outside quotes follows `startIndex`; otherwise it returns the first such `>` |
| TagParser.NeverInBothQuotes | src/core/HtmlTagParser.java:22-32 | the scan is never inside double and single quotes at once |
| TagParser.QuotesUnchangedWithoutQuoteChars | src/core/HtmlTagParser.java:22-32 | only the two quote characters change the quote state |
| TagParser.PlainTagEnd | src/core/HtmlTagParser.java:34-37 | with no quote before it, the first `>` ends the tag |
| TagParser.QuotedGreaterThanSkipped | src/core/HtmlTagParser.java:22-37 | in `a title=">">` the quoted `>` is skipped and the last one ends the tag |
| TagParser.ApostropheInsideDoubleQuotes | src/core/HtmlTagParser.java:28-32 | an apostrophe inside double quotes does not start a single-quoted value |
| TagParser.BackslashDoesNotEscape | src/core/HtmlTagParser.java:22-26 | a backslash before a quote does not escape it |
| TagParser.LoneQuoteHidesTagEnd | src/core/HtmlTagParser.java:22-41 | a quote that is never matched hides every later `>`: with no `>` before it, the tag has no end |
| TagParser.EndTag | src/core/HtmlTagParser.java:55 | the closing tag looked for is `</`, the name as given, and `>` |
| TagParser.SkipSpecialTagContent | src/core/HtmlTagParser.java:53-67 | returns the index just past the first occurrence of the closing tag at or after the start, or -1 exactly when it does not occur |
| TagParser.SkipIsCaseSensitive | src/core/HtmlTagParser.java:55-63 | `</SCRIPT>` is not found when `</script>` is looked for |
| JavaStrings.Lower | src/core/HtmlStructureValidator.java:170 | `toLowerCase` keeps the length and lower-cases each character; `LowerIdempotent` and `EqualsIgnoreCaseIsLowerEquality` build on it |
| JavaStrings.Upper | src/utils/HtmlTagExtractor.java:61 | `toUpperCase` keeps the length and upper-cases each character; `DoctypeIgnoredInAnyCase` builds on it |
| JavaStrings.IndexOf | src/core/HtmlTagParser.java:58 | the first occurrence at or after the start, or -1 exactly when there is none |
| JavaStrings.Trim | src/core/HtmlStructureValidator.java:47 | the trimmed text is no longer than the input and, unless empty, starts and ends above U+0020 |
| JavaStrings.TrimEmptyIffBlank | src/core/HtmlStructureValidator.java:47 | a string trims to nothing exactly when it is blank |
| JavaStrings.EqualsIgnoreCaseIsLowerEquality | src/utils/HtmlTagExtractor.java:88-89 | case-insensitive equality is equality after lower-casing |
| FileValidator.HasValidExtension | src/core/HtmlFileValidator.java:29-38 | a path is acceptable when it is present and, lower-cased, ends in `.html` or `.htm`; `ExtensionAcceptedInAnyCase`, `ExtensionCheckIgnoresCase` and `OtherPathsRefused` state its consequences |
| FileValidator.Validate | src/core/HtmlFileValidator.java:15-21 | passes exactly on an acceptable path and fails with `InvalidExtension` otherwise |
| FileValidator.ExtensionAcceptedInAnyCase | src/core/HtmlFileValidator.java:34-37 | any name followed by `.html` or `.htm`, in any case, is accepted |
| FileValidator.ExtensionCheckIgnoresCase | src/core/HtmlFileValidator.java:34 | only the lower-cased path matters |
| FileValidator.OtherPathsRefused | src/core/HtmlFileValidator.java:29-38 | a null path, a path without a dot, and a path not ending in `l` or `m` are refused |
| StructureValidator.IsTagStart | src/core/HtmlStructureValidator.java:119-121 | a tag starts at `<` and nowhere else |
| StructureValidator.ExtractTagContent | src/core/HtmlStructureValidator.java:142-144 | the text strictly between the `<` and the `>` |
| StructureValidator.NormalizedTagName | src/core/HtmlStructureValidator.java:163-171 | the lower-cased run of characters up to the first delimiter, after at most one leading `/` |
| StructureValidator.NeedsSpecialHandling | src/core/HtmlStructureValidator.java:180-182 | any tag text not starting with `/`, `script/` included, whose name is `script` or `style` in any case |
| StructureValidator.IsSelfClosing | src/core/HtmlStructureValidator.java:203-205 | a void element, or any tag text ending in `/` |
| StructureValidator.TagStep | src/core/HtmlStructureValidator.java:71-96 | a pass over a tag resumes strictly past the tag's `>` and at most one past the end |
| StructureValidator.StepAt | src/core/HtmlStructureValidator.java:57-97 | a pass always moves the scan forward, and at most one past the end |
| StructureValidator.ScanFrom | src/core/HtmlStructureValidator.java:57-106 | the loop's outcome from an index with the given open tags: pass after pass until refused or past the end, where no tag may be open |
| StructureValidator.Verdict | src/core/HtmlStructureValidator.java:45-109 | a document is valid when it is not blank and the scan from its start, with no tag open, succeeds |
| StructureValidator.ScanByPass | src/core/HtmlStructureValidator.java:57-97 | the verdict from an index is the verdict from where the pass at that index resumes, or false when it refuses |
| StructureValidator.HandleTag | src/core/HtmlStructureValidator.java:73-96 | the tag is ignored, its raw-text body is skipped, or it is applied to the stack, as `TagStep` says |
| StructureValidator.HandleTagStart | src/core/HtmlStructureValidator.java:63-71 | a tag without a closing `>` refuses the document; otherwise as `StepAt` says |
| StructureValidator.ScanPass | src/core/HtmlStructureValidator.java:57-97 | one loop pass, with the loop's increment, moves forward and keeps the verdict |
| StructureValidator.ValidateHtmlStructure | src/core/HtmlStructureValidator.java:45-109 | the result is `Verdict(content)`: not blank, every tag accepted, and no tag left open |
| StructureValidator.IsValidHtml | src/core/HtmlStructureValidator.java:29-38 | a bad path fails with `InvalidExtension`; otherwise the result is the verdict on the content |
| StructureProperties.UnquotedTagStep | src/core/HtmlStructureValidator.java:63-70 | a tag with no quote and no inner `>` is delimited at its own `>` |
| StructureProperties.OpeningTagApplied | src/core/HtmlStructureValidator.java:79-96 | an ordinary opening tag pushes its lower-cased name |
| StructureProperties.OpeningTagStep | src/core/HtmlStructureValidator.java:57-97 | `<name>` of an ordinary element resumes just past itself with the name pushed |
| StructureProperties.ClosingTagApplied | src/core/HtmlStructureValidator.java:79-96 | a closing tag is accepted exactly when it is not a void element and matches the innermost open tag in any case, which it pops |
| StructureProperties.ClosingTagStep | src/core/HtmlStructureValidator.java:57-97 | `</name>` is accepted and pops exactly when it names the innermost open tag and is not void; otherwise it is refused |
| StructureProperties.VoidTagApplied | src/core/HtmlStructureValidator.java:79-96 | a void element is accepted and changes nothing |
| StructureProperties.VoidTagStep | src/core/HtmlStructureValidator.java:57-97 | `<br>`-like tags resume just past themselves with the stack unchanged |
| StructureProperties.SelfClosedTagApplied | src/core/HtmlStructureValidator.java:91-96 | a name other than `script` or `style`, written with a trailing `/`, is accepted and changes nothing |
| StructureProperties.SelfClosedTagStep | src/core/HtmlStructureValidator.java:57-97 | `<name/>`, for a name other than `script` or `style`, resumes just past itself with the stack unchanged |
| StructureProperties.SelfClosedRawTextApplied | src/core/HtmlStructureValidator.java:180-182 | `script/` or `style/` still needs its body skipped: the scan resumes one past the first lower-case closing tag, or refuses without one |
| StructureProperties.SelfClosedRawTextStep | src/core/HtmlStructureValidator.java:82-87 | `<script/>` or `<style/>` resumes one past the first lower-case closing tag after it, or refuses the document without one |
| StructureProperties.IgnoredTagStep | src/core/HtmlStructureValidator.java:73-76 | comments, doctypes and processing instructions whose text holds no quote and no `>` leave the stack unchanged |
| StructureProperties.CommentStep | src/core/HtmlStructureValidator.java:73-76 | a comment whose body holds no quote and no `>` resumes just past itself with the stack unchanged |
| StructureProperties.RawTextEndFound | src/core/HtmlTagParser.java:58 | the closing tag after a body in which it does not occur earlier is the first one found, whatever else the body holds |
| StructureProperties.RawTextTagApplied | src/core/HtmlStructureValidator.java:82-87 | a raw-text opening tag resumes one past the end of its lower-case closing tag |
| StructureProperties.UnterminatedRawTextApplied | src/core/HtmlStructureValidator.java:82-86 | a raw-text opening tag with no lower-case closing tag after it is refused |
| StructureProperties.RawTextStep | src/core/HtmlStructureValidator.java:82-87 | a `script` or `style` element whose body does not hold its lower-case closing tag resumes one character past that closing tag, with the stack unchanged; the body may hold `<` |
| StructureProperties.RawTextElementIsValid | src/core/HtmlStructureValidator.java:82-87 | a document that is one `script` or `style` element is valid, whatever its body holds before the closing tag |
| StructureProperties.UnterminatedRawTextStep | src/core/HtmlStructureValidator.java:82-86 | an unterminated `script` or `style` refuses the document |
| StructureProperties.MalformedTagStep | src/core/HtmlStructureValidator.java:64-67 | a `<` with no `>` after it refuses the document |
| StructureProperties.ScanSkipsText | src/core/HtmlStructureValidator.java:59-61 | text without `<` never changes the stack or the verdict |
| StructureProperties.TextStep | src/core/HtmlStructureValidator.java:59-61 | a character other than `<` is stepped over: the verdict from it is the verdict from the next index |
| StructureProperties.ScanOpeningTag | src/core/HtmlStructureValidator.java:57-97 | the verdict before an ordinary opening tag is the verdict after it, with the name pushed |
| StructureProperties.ScanMatchingClosingTag | src/core/HtmlStructureValidator.java:57-97 | the verdict before a matching closing tag is the verdict after it, with the name popped |
| StructureProperties.ScanUnchangingTag | src/core/HtmlStructureValidator.java:57-97 | void elements, `<name/>` tags for names other than `script` and `style`, and comments whose body holds no quote and no `>` keep the verdict and the stack |
| StructureProperties.ScanVoidTag | src/core/HtmlStructureValidator.java:57-97 | the verdict before a void element is the verdict after it, with the same open tags |
| StructureProperties.ScanSelfClosedTag | src/core/HtmlStructureValidator.java:57-97 | the verdict before `<name/>`, for a name other than `script` or `style`, is the verdict after it, with the same open tags |
| StructureProperties.ScanComment | src/core/HtmlStructureValidator.java:73-76 | the verdict before a comment whose body holds no quote and no `>` is the verdict after it, with the same open tags |
| StructureProperties.ScanText | src/core/HtmlStructureValidator.java:59-61 | text without `<` keeps the verdict and the stack |
| StructureProperties.ScanRendered | src/core/HtmlStructureValidator.java:57-97 | scanning a grammar document (text without `<`, attribute-free ordinary elements, void tags, `<name/>` tags and comments without quotes or `>`) leaves the stack and the verdict as they were |
| StructureProperties.ScanElement | src/core/HtmlStructureValidator.java:57-97 | an attribute-free ordinary element of a grammar document pushes its name, its content keeps the stack, and its closing tag pops the name again |
| StructureProperties.ScanWellNested | src/core/HtmlStructureValidator.java:57-97 | the scan of a grammar document (text without `<`, attribute-free ordinary elements, void tags, `<name/>` tags and comments without quotes or `>`) ends with no tag open |
| StructureProperties.WellNestedIsValid | src/core/HtmlStructureValidator.java:45-109 | every non-blank grammar document (text without `<`, attribute-free elements other than void, `script` and `style`, void tags, `<name/>` tags and comments without quotes or `>`) is valid |
| StructureProperties.BlankIsInvalid | src/core/HtmlStructureValidator.java:47-50 | every blank document is invalid |
| StructureProperties.UnclosedElementIsInvalid | src/core/HtmlStructureValidator.java:100-106 | an ordinary opening tag followed only by a grammar document leaves its element open, and the document is invalid |
| StructureProperties.StrayClosingTagIsInvalid | src/core/TagStackProcessor.java:35-37 | a closing tag after a grammar document, where no tag is open, makes the document invalid, whatever follows |
| StructureProperties.CrossedTagsAreInvalid | src/core/TagStackProcessor.java:40-43 | `<a><b>…</a>`, with a grammar document in place of `…`, is invalid whatever follows |
| StructureProperties.TagStartNotBlank | src/core/HtmlStructureValidator.java:47 | a document starting with `<` passes the blank check |
| StructureProperties.ScanPastTagStart | src/core/HtmlStructureValidator.java:57-61 | past the `<` of a final tag, the rest is stepped over as text |
| StructureProperties.RawTextHidesNextTag | src/core/HtmlStructureValidator.java:83-87 | a tag starting right after a raw-text element's closing tag is never seen, so the document is valid |
| StructureProperties.RawTextThenClosingTag | src/core/HtmlStructureValidator.java:83-87 | after a raw-text element, a closing tag that ends the document is stepped over as text, so the scan succeeds only with no tag open |
| StructureProperties.RawTextInsideElementIsInvalid | src/core/HtmlStructureValidator.java:83-87 | a `script` or `style` element inside an ordinary element makes the document invalid, because the `<` of the outer closing tag is skipped |
| StructureProperties.ClosedVoidInsideElementIsInvalid | src/core/TagStackProcessor.java:29-32 | a void element written as a closing tag is refused inside an open element too, whatever follows |
| ScanExamples.RawTextSwallowsNextCharacter | src/core/HtmlStructureValidator.java:83-87 | `<script></script><b>` is valid |
| ScanExamples.LoneOpeningTagIsInvalid | src/core/HtmlStructureValidator.java:100-106 | `<b>` is invalid |
| ScanExamples.VoidInsideParagraph | src/core/HtmlStructureValidator.java:79-96 | `<p><BR></P>` is valid |
| ScanExamples.ClosedVoidElementIsInvalid | src/core/TagStackProcessor.java:29-32 | `</br>` is invalid |
| ScanExamples.ClosedVoidInParagraphIsInvalid | src/core/TagStackProcessor.java:29-32 | `<p></br></p>` is invalid |
| ScanExamples.ScriptInParagraphIsInvalid | src/core/HtmlStructureValidator.java:83-87 | `<p><script></script></p>` is invalid |
| ScanExamples.LessThanInScriptIsText | src/core/HtmlStructureValidator.java:82-87 | `<script>a<b</script>` is valid: the `<` in the body is never read as a tag |
| ScanExamples.SelfClosedScriptIsInvalid | src/core/HtmlStructureValidator.java:180-182 | `<script/>` is invalid |
| ScanExamples.QuoteInCommentIsInvalid | src/core/HtmlTagParser.java:22-37 | `<!-- don't -->` is invalid |
| ScanExamples.UpperCaseScriptIsInvalid | src/core/HtmlStructureValidator.java:83-86 | `<SCRIPT></SCRIPT>` is invalid, because the closing tag is looked for in lower case |

## Left out

- Unicode case mapping: `toLowerCase`, `toUpperCase` and `equalsIgnoreCase` are modelled
  over ASCII letters only. `Character.isWhitespace` is modelled for characters of the Basic
  Multilingual Plane. `trim` strips every character at or below U+0020, as Java's does.
- Printing: the debug output of `processTag`, the error messages, and the list of unclosed
  tags. That list is still computed (`GetRemainingUnclosedTags`), but nothing is done with it.
- `MyStack.toString` and `Node.toString`: they are used only for debug output.
- The user interface (`HtmlValidatorUI`) and file reading (`HtmlFileReader`).
  `IsValidHtml` takes the file's text as a parameter.
- A null document: `content` is a string and cannot be null. A null path is modelled, as
  `None`.
- Exceptions: the throw in `validate` becomes a `Failure(InvalidExtension)` result. The
  empty-stack throw of `pop` and `peek` becomes a precondition, which `ProcessTag` and
  `GetRemainingUnclosedTags` are proved to meet.
- JavaStrings.IndexOf: it is modelled for a non-empty pattern's use only. For an empty
  pattern with a start past the end, Java returns the length and the model returns -1. The
  closing tag looked for is never empty.
- The body of the Java `for` loop in `validateHtmlStructure` is split into
  `ScanPass`, `HandleTagStart` and `HandleTag`. Writing back the loop index (`i = closingIndex`,
  `i = handleSpecialTagContent(…)`) becomes the methods' `last`/`next` results. The loop's
  `i++` is the `+ 1` of `ScanPass`.
- Integer widths: indices are unbounded. A document of 2^31 characters or more, where Java's
  `int` indices would overflow, is not modelled.
