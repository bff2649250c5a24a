/** The one-pass structural check of a whole document. */
module StructureValidator {
  import opened JavaStrings
  import opened Wrappers
  import opened TagExtractor
  import opened TagParser
  import opened TagStack
  import FileValidator

  predicate IsTagStart(c: char) {
    c == '<'
  }

  /** The text strictly between the `<` at `startIndex` and the `>` at `endIndex`. */
  function ExtractTagContent(content: string, startIndex: nat, endIndex: nat): (rawTag: string)
    requires startIndex < endIndex <= |content|
    ensures |rawTag| == endIndex - startIndex - 1
    ensures forall k :: 0 <= k < |rawTag| ==> rawTag[k] == content[startIndex + 1 + k]
  {
    content[startIndex + 1..endIndex]
  }

  /** The tag's name without a leading `/`, its attributes or its case: the lower-cased
      run of characters up to the first delimiter, after at most one leading `/`. */
  function NormalizedTagName(rawTag: string): (name: string)
    ensures |name| <= |rawTag|
    ensures var body := if StartsWith(rawTag, "/") then rawTag[1..] else rawTag;
            && |name| <= |body| && name == Lower(body[..|name|])
            && (|name| < |body| ==> IsNameDelimiter(body[|name|]))
    ensures Lower(name) == name
    ensures forall k :: 0 <= k < |name| ==> !IsNameDelimiter(name[k])
  {
    var withoutSlash := if StartsWith(rawTag, "/") then rawTag[1..] else rawTag;
    LowerIdempotent(ExtractTagName(withoutSlash));
    Lower(ExtractTagName(withoutSlash))
  }

  /** An opening `script` or `style` tag, whose body is skipped unread. */
  predicate NeedsSpecialHandling(rawTag: string, tagName: string) {
    !StartsWith(rawTag, "/") && IsSpecialTag(tagName)
  }

  /** A void element, or a tag written with a trailing `/`. */
  predicate IsSelfClosing(rawTag: string, tagName: string) {
    IsSelfClosingTag(tagName) || EndsWith(rawTag, "/")
  }

  /** What one pass of the scan loop does: the document is refused, or the scan goes on at
      `resume` (the loop index after its increment) with the open tags `open`. */
  datatype Step = Reject | Continue(resume: nat, open: seq<string>)

  /**
   * One pass of the scan loop at the tag `rawTag` whose closing `>` is at `closingIndex`: the
   * tag is ignored, its raw-text body is skipped, or it is applied to the stack. Every path
   * resumes one index past the position reached, so the character right after a raw-text
   * element's closing tag is never examined.
   */
  function TagStep(content: string, closingIndex: nat, rawTag: string, open: seq<string>): (s: Step)
    requires closingIndex < |content|
    ensures s.Continue? ==> closingIndex < s.resume <= |content| + 1
  {
    if ShouldIgnoreTag(rawTag) then Continue(closingIndex + 1, open)
    else
      var tagName := NormalizedTagName(rawTag);
      if NeedsSpecialHandling(rawTag, tagName) then
        var after := SkipSpecialTagContent(content, closingIndex, tagName);
        if after == -1 then Reject else Continue(after + 1, open)
      else
        var outcome := TagTransition(open, rawTag, tagName, IsSelfClosing(rawTag, tagName));
        if outcome.accepted then Continue(closingIndex + 1, outcome.open) else Reject
  }

  /** One pass of the scan loop at index `i`: text is stepped over, and a `<` starts a tag
      that is delimited by its first unquoted `>`; without one the document is refused. */
  function StepAt(content: string, i: nat, open: seq<string>): (s: Step)
    requires i < |content|
    ensures s.Continue? ==> i < s.resume <= |content| + 1
  {
    if !IsTagStart(content[i]) then Continue(i + 1, open)
    else
      var closingIndex := TagEnd(content, i + 1);
      if closingIndex == -1 then Reject
      else TagStep(content, closingIndex, ExtractTagContent(content, i, closingIndex), open)
  }

  /** The verdict of the scan loop when it is about to look at index `i` with the open tags
      `open`: it runs pass after pass, and at the end no tag may be left open. */
  function ScanFrom(content: string, i: nat, open: seq<string>): bool
    decreases |content| - i
  {
    if i >= |content| then open == []
    else match StepAt(content, i, open)
      case Reject => false
      case Continue(next, after) => ScanFrom(content, next, after)
  }

  /** The scan from index `i` is the scan from where the pass at `i` resumes it. */
  lemma ScanByPass(content: string, i: nat, open: seq<string>, ok: bool, next: nat, open2: seq<string>)
    requires i < |content|
    requires StepAt(content, i, open) == (if ok then Continue(next, open2) else Reject)
    ensures ScanFrom(content, i, open) == (ok && ScanFrom(content, next, open2))
  {
  }

  /** A document is structurally valid when it is not blank and the scan from its start with
      no open tags succeeds. */
  predicate Verdict(content: string) {
    Trim(content) != [] && ScanFrom(content, 0, [])
  }

  /**
   * The body of the scan loop at a tag whose text `rawTag` ends at `closingIndex`: the tag
   * is ignored, its raw-text body is skipped, or it is applied to the stack. `last` is the
   * index the loop variable holds afterwards, before the loop's own increment.
   */
  method HandleTag(content: string, closingIndex: nat, rawTag: string, stackProcessor: TagStackProcessor)
    returns (ok: bool, last: nat)
    requires closingIndex < |content| && stackProcessor.Valid()
    modifies stackProcessor.stack
    ensures stackProcessor.Valid() && fresh(stackProcessor.stack.Repr - old(stackProcessor.stack.Repr))
    ensures TagStep(content, closingIndex, rawTag, old(stackProcessor.Tags())) ==
            if ok then Continue(last + 1, stackProcessor.Tags()) else Reject
  {
    if ShouldIgnoreTag(rawTag) {
      return true, closingIndex;
    }
    var normalizedTagName := NormalizedTagName(rawTag);
    if NeedsSpecialHandling(rawTag, normalizedTagName) {
      var after := SkipSpecialTagContent(content, closingIndex, normalizedTagName);
      if after == -1 {
        return false, closingIndex;
      }
      return true, after;
    }
    var selfClosing := IsSelfClosing(rawTag, normalizedTagName);
    ok := stackProcessor.ProcessTag(rawTag, normalizedTagName, selfClosing);
    last := closingIndex;
  }

  /**
   * The body of the scan loop at a `<`: the tag is delimited (the search starts just past
   * the `<`), a tag with no closing `>` ends the scan, and the rest is `HandleTag`.
   */
  method HandleTagStart(content: string, i: nat, stackProcessor: TagStackProcessor)
    returns (ok: bool, last: nat)
    requires i < |content| && IsTagStart(content[i]) && stackProcessor.Valid()
    modifies stackProcessor.stack
    ensures stackProcessor.Valid() && fresh(stackProcessor.stack.Repr - old(stackProcessor.stack.Repr))
    ensures StepAt(content, i, old(stackProcessor.Tags())) ==
            if ok then Continue(last + 1, stackProcessor.Tags()) else Reject
  {
    var closingIndex := FindTagClosingBracket(content, i + 1);
    if closingIndex == -1 {
      return false, i;
    }
    var rawTag := ExtractTagContent(content, i, closingIndex);
    ok, last := HandleTag(content, closingIndex, rawTag, stackProcessor);
  }

  /** One pass of the scan loop at index `i`, with the loop's increment: `next` is where the
      following pass starts. */
  method ScanPass(content: string, i: nat, stackProcessor: TagStackProcessor)
    returns (ok: bool, next: nat)
    requires i < |content| && stackProcessor.Valid()
    modifies stackProcessor.stack
    ensures stackProcessor.Valid() && fresh(stackProcessor.stack.Repr - old(stackProcessor.stack.Repr))
    ensures ok ==> i < next
    ensures ScanFrom(content, i, old(stackProcessor.Tags())) ==
            (ok && ScanFrom(content, next, stackProcessor.Tags()))
  {
    ghost var open := stackProcessor.Tags();
    if IsTagStart(content[i]) {
      var last;
      ok, last := HandleTagStart(content, i, stackProcessor);
      next := last + 1;
    } else {
      ok, next := true, i + 1;
    }
    ScanByPass(content, i, open, ok, next, stackProcessor.Tags());
  }

  /** The scan loop over `content`, driving a fresh nesting stack. */
  method ValidateHtmlStructure(content: string) returns (valid: bool)
    ensures valid == Verdict(content)
  {
    if Trim(content) == [] {
      return false;
    }
    var stackProcessor := new TagStackProcessor();
    var length := |content|;
    var i := 0;
    while i < length
      invariant stackProcessor.Valid() && fresh(stackProcessor.stack)
      invariant Verdict(content) == ScanFrom(content, i, stackProcessor.Tags())
      decreases length - i
    {
      var ok;
      ok, i := ScanPass(content, i, stackProcessor);
      if !ok {
        return false;
      }
    }
    var empty := stackProcessor.IsStackEmpty();
    if !empty {
      var unclosedTags := stackProcessor.GetRemainingUnclosedTags();
      return false;
    }
    return true;
  }

  /** Checks the path, then the structure of `content`, the text read from that path. */
  method IsValidHtml(filePath: Option<string>, content: string)
    returns (result: Result<bool, FileValidator.FileError>)
    ensures !FileValidator.HasValidExtension(filePath) ==>
              result == Failure(FileValidator.InvalidExtension)
    ensures FileValidator.HasValidExtension(filePath) ==> result == Success(Verdict(content))
  {
    var outcome := FileValidator.Validate(filePath);
    if outcome.Fail? {
      return Failure(outcome.error);
    }
    var valid := ValidateHtmlStructure(content);
    return Success(valid);
  }
}
