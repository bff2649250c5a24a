/**
 * What the scan decides, tag by tag and for whole documents: documents of the `Markup`
 * grammar are accepted, and unclosed, stray or crossed tags are refused.
 */
module StructureProperties {
  import opened JavaStrings
  import opened TagExtractor
  import opened TagParser
  import opened TagStack
  import opened StructureValidator

  predicate IsAsciiDigit(c: char) {
    '0' <= c <= '9'
  }

  /** A tag name made of ASCII letters and digits, starting with a letter. */
  predicate PlainName(name: string) {
    && name != []
    && (IsAsciiLower(name[0]) || IsAsciiUpper(name[0]))
    && forall k :: 0 <= k < |name| ==>
         IsAsciiLower(name[k]) || IsAsciiUpper(name[k]) || IsAsciiDigit(name[k])
  }

  /** Text that cannot end a tag early or open a quoted value. */
  predicate Unquoted(text: string) {
    forall k :: 0 <= k < |text| ==> text[k] != '"' && text[k] != '\'' && text[k] != '>'
  }

  /** Text in which no tag starts. */
  predicate NoTagStart(text: string) {
    forall k :: 0 <= k < |text| ==> text[k] != '<'
  }

  /** `text` is written in `content` from index `i` on. */
  predicate WrittenAt(content: string, i: nat, text: string) {
    i + |text| <= |content| && content[i..i + |text|] == text
  }

  function OpenTag(name: string): string {
    "<" + name + ">"
  }

  function CloseTag(name: string): string {
    "<" + ("/" + name) + ">"
  }

  /** A tag written with a trailing slash, `<name/>`. */
  function SelfClosedTag(name: string): string {
    "<" + (name + "/") + ">"
  }

  /** A comment `<!--body>`; a conventional comment's body ends in `--`. */
  function CommentTag(body: string): string {
    "<" + (CommentPrefix + body) + ">"
  }

  /** A `script` or `style` element: its opening tag, a body and the lower-case closing tag
      the scan looks for. */
  function RawTextElement(name: string, body: string): string {
    OpenTag(name) + (body + EndTag(Lower(name)))
  }

  /** A text written at `i` followed by another is each written in its place. */
  lemma WrittenAtSplit(content: string, i: nat, a: string, b: string)
    requires WrittenAt(content, i, a + b)
    ensures WrittenAt(content, i, a) && WrittenAt(content, i + |a|, b)
  {
    assert content[i..i + |a|] == (a + b)[..|a|];
    assert content[i + |a|..i + |a| + |b|] == (a + b)[|a|..];
  }

  /** A plain name, with a slash before or after it, has no quote and no `>`. */
  lemma PlainNameUnquoted(name: string)
    requires PlainName(name)
    ensures Unquoted(name) && Unquoted("/" + name) && Unquoted(name + "/")
  {
    assert forall k :: 1 <= k < |"/" + name| ==> ("/" + name)[k] == name[k - 1];
    assert forall k :: 0 <= k < |name| ==> (name + "/")[k] == name[k];
  }

  /** A plain name is its own tag name, with or without a trailing slash. */
  lemma PlainNameExtracted(name: string)
    requires PlainName(name)
    ensures ExtractTagName(name) == name && ExtractTagName(name + "/") == name
  {
    ExtractTagNameWhole(name);
    var tagText := name + "/";
    assert forall k :: 0 <= k < |name| ==> !IsNameDelimiter(tagText[k]);
    assert IsNameDelimiter(tagText[|name|]);
    var r := ExtractTagName(tagText);
    assert |r| == |name|;
    assert r == tagText[..|name|] == name;
  }

  /** Which forms of a plain-name tag start or end with a slash, and that none is ignored. */
  lemma PlainNameSlashes(name: string)
    requires PlainName(name)
    ensures !StartsWith(name, "/") && !StartsWith(name + "/", "/") && StartsWith("/" + name, "/")
    ensures !EndsWith(name, "/") && !EndsWith("/" + name, "/") && EndsWith(name + "/", "/")
    ensures !ShouldIgnoreTag(name) && !ShouldIgnoreTag("/" + name) && !ShouldIgnoreTag(name + "/")
  {
    assert ("/" + name)[..1] == "/";
    assert (name + "/")[|name|..] == "/";
    assert ("/" + name)[|"/" + name| - 1] == name[|name| - 1];
    assert (name + "/")[0] == name[0];
    OrdinaryTagNotIgnored(name);
    OrdinaryTagNotIgnored("/" + name);
    OrdinaryTagNotIgnored(name + "/");
  }

  /** A plain name, lower-cased, passes the stack's name check. */
  lemma PlainNameAcceptable(name: string)
    requires PlainName(name)
    ensures IsAcceptableName(Lower(name))
  {
    forall k | 0 <= k < |name|
      ensures Lower(name)[k] != '<' && Lower(name)[k] != '>'
    {
    }
  }

  /** Every form of a plain-name tag normalizes to the lower-cased name. */
  lemma PlainNameNormalized(name: string)
    requires PlainName(name)
    ensures NormalizedTagName(name) == Lower(name)
    ensures NormalizedTagName("/" + name) == Lower(name)
    ensures NormalizedTagName(name + "/") == Lower(name)
  {
    PlainNameExtracted(name);
    PlainNameSlashes(name);
    assert ("/" + name)[1..] == name;
  }

  /** A tag whose text has no quote and no `>` is delimited at its first `>`, at
      `closingIndex`. */
  lemma UnquotedTagStep(content: string, i: nat, rawTag: string, closingIndex: nat, open: seq<string>)
    requires Unquoted(rawTag) && WrittenAt(content, i, "<" + rawTag + ">")
    requires closingIndex == i + |rawTag| + 1
    ensures closingIndex < |content| && content[i] == '<'
    ensures StepAt(content, i, open) == TagStep(content, closingIndex, rawTag, open)
  {
    var tag := "<" + rawTag + ">";
    assert content[i] == tag[0];
    assert content[closingIndex] == tag[|rawTag| + 1];
    forall j | i + 1 <= j < closingIndex
      ensures content[j] != '"' && content[j] != '\'' && content[j] != '>'
    {
      assert content[j] == tag[j - i] == rawTag[j - i - 1];
    }
    PlainTagEnd(content, i + 1, closingIndex);
    assert ExtractTagContent(content, i, closingIndex) == rawTag;
  }

  /** An ordinary element's opening tag is accepted and pushes its lower-cased name. */
  lemma OpeningTagApplied(content: string, closingIndex: nat, name: string, open: seq<string>, next: nat)
    requires PlainName(name) && !IsSelfClosingTag(name) && !IsSpecialTag(Lower(name))
    requires closingIndex < |content| && next == closingIndex + 1
    ensures TagStep(content, closingIndex, name, open) == Continue(next, [Lower(name)] + open)
  {
    PlainNameSlashes(name);
    PlainNameNormalized(name);
    PlainNameAcceptable(name);
    SelfClosingIgnoresCase(name);
  }

  /** An opening tag of an ordinary element pushes its lower-cased name. */
  lemma OpeningTagStep(content: string, i: nat, name: string, open: seq<string>, next: nat)
    requires PlainName(name) && !IsSelfClosingTag(name) && !IsSpecialTag(Lower(name))
    requires WrittenAt(content, i, OpenTag(name)) && next == i + |OpenTag(name)|
    ensures i < |content|
    ensures StepAt(content, i, open) == Continue(next, [Lower(name)] + open)
  {
    PlainNameUnquoted(name);
    var closingIndex := i + |name| + 1;
    UnquotedTagStep(content, i, name, closingIndex, open);
    OpeningTagApplied(content, closingIndex, name, open, next);
  }

  /** A closing tag is accepted exactly when it is not a void element and it names, in any
      case, the innermost open tag, which it pops. */
  lemma ClosingTagApplied(content: string, closingIndex: nat, name: string, open: seq<string>, next: nat)
    requires PlainName(name) && closingIndex < |content| && next == closingIndex + 1
    ensures TagStep(content, closingIndex, "/" + name, open) ==
            if !IsSelfClosingTag(name) && open != [] && open[0] == Lower(name)
            then Continue(next, open[1..])
            else Reject
  {
    PlainNameSlashes(name);
    PlainNameNormalized(name);
    PlainNameAcceptable(name);
    SelfClosingIgnoresCase(name);
  }

  /**
   * A closing tag is accepted exactly when it is not a void element and it names, in any
   * case, the innermost open tag, which it pops.
   */
  lemma ClosingTagStep(content: string, i: nat, name: string, open: seq<string>, next: nat)
    requires PlainName(name) && WrittenAt(content, i, CloseTag(name)) && next == i + |CloseTag(name)|
    ensures i < |content|
    ensures StepAt(content, i, open) ==
            if !IsSelfClosingTag(name) && open != [] && open[0] == Lower(name)
            then Continue(next, open[1..])
            else Reject
  {
    PlainNameUnquoted(name);
    var closingIndex := i + |name| + 2;
    UnquotedTagStep(content, i, "/" + name, closingIndex, open);
    ClosingTagApplied(content, closingIndex, name, open, next);
  }

  /** A void element written without a slash is accepted and changes nothing. */
  lemma VoidTagApplied(content: string, closingIndex: nat, name: string, open: seq<string>, next: nat)
    requires PlainName(name) && IsSelfClosingTag(name)
    requires closingIndex < |content| && next == closingIndex + 1
    ensures TagStep(content, closingIndex, name, open) == Continue(next, open)
  {
    PlainNameSlashes(name);
    PlainNameNormalized(name);
    PlainNameAcceptable(name);
    SelfClosingIgnoresCase(name);
    VoidAndRawTextDisjoint(Lower(name));
  }

  /** A void element written without a slash leaves the open tags as they are. */
  lemma VoidTagStep(content: string, i: nat, name: string, open: seq<string>, next: nat)
    requires PlainName(name) && IsSelfClosingTag(name)
    requires WrittenAt(content, i, OpenTag(name)) && next == i + |OpenTag(name)|
    ensures i < |content|
    ensures StepAt(content, i, open) == Continue(next, open)
  {
    PlainNameUnquoted(name);
    var closingIndex := i + |name| + 1;
    UnquotedTagStep(content, i, name, closingIndex, open);
    VoidTagApplied(content, closingIndex, name, open, next);
  }

  /** A plain name written with a trailing slash is accepted and changes nothing. */
  lemma SelfClosedTagApplied(content: string, closingIndex: nat, name: string, open: seq<string>, next: nat)
    requires PlainName(name) && !IsSpecialTag(Lower(name))
    requires closingIndex < |content| && next == closingIndex + 1
    ensures TagStep(content, closingIndex, name + "/", open) == Continue(next, open)
  {
    PlainNameSlashes(name);
    PlainNameNormalized(name);
    PlainNameAcceptable(name);
    var rawTag := name + "/";
    assert !StartsWith(rawTag, "/") && EndsWith(rawTag, "/");
    assert IsSelfClosing(rawTag, Lower(name));
  }

  /** A tag written `<name/>` leaves the open tags as they are, whatever the name, unless it
      is `script` or `style`. */
  lemma SelfClosedTagStep(content: string, i: nat, name: string, open: seq<string>, next: nat)
    requires PlainName(name) && !IsSpecialTag(Lower(name))
    requires WrittenAt(content, i, SelfClosedTag(name)) && next == i + |SelfClosedTag(name)|
    ensures i < |content|
    ensures StepAt(content, i, open) == Continue(next, open)
  {
    PlainNameUnquoted(name);
    var closingIndex := i + |name| + 2;
    UnquotedTagStep(content, i, name + "/", closingIndex, open);
    SelfClosedTagApplied(content, closingIndex, name, open, next);
  }

  /** A `script` or `style` tag written with a trailing slash still starts a raw-text body:
      the scan resumes past the first lower-case closing tag after it (`after`, the end-tag
      search's result), or refuses without one. */
  lemma SelfClosedRawTextApplied(content: string, closingIndex: nat, name: string, open: seq<string>, after: int)
    requires PlainName(name) && IsSpecialTag(Lower(name)) && closingIndex < |content|
    requires after == SkipSpecialTagContent(content, closingIndex, Lower(name))
    ensures TagStep(content, closingIndex, name + "/", open) ==
            if after == -1 then Reject else Continue(after + 1, open)
  {
    SelfClosedRawTextClassified(name);
  }

  /** `name/` for a raw-text name is not ignored, names the raw-text element and needs its
      body skipped. */
  lemma SelfClosedRawTextClassified(name: string)
    requires PlainName(name) && IsSpecialTag(Lower(name))
    ensures !ShouldIgnoreTag(name + "/") && NormalizedTagName(name + "/") == Lower(name)
    ensures NeedsSpecialHandling(name + "/", Lower(name))
  {
    PlainNameSlashes(name);
    PlainNameNormalized(name);
  }

  /** `<script/>` and `<style/>` are not self-closing: each starts a raw-text body that only
      a lower-case closing tag after it ends. `after` is the end-tag search's result. */
  lemma SelfClosedRawTextStep(content: string, i: nat, name: string, open: seq<string>, closingIndex: nat, after: int)
    requires PlainName(name) && IsSpecialTag(Lower(name))
    requires WrittenAt(content, i, SelfClosedTag(name)) && closingIndex == i + |name| + 2
    requires after == SkipSpecialTagContent(content, closingIndex, Lower(name))
    ensures closingIndex < |content|
    ensures StepAt(content, i, open) == if after == -1 then Reject else Continue(after + 1, open)
  {
    PlainNameUnquoted(name);
    UnquotedTagStep(content, i, name + "/", closingIndex, open);
    SelfClosedRawTextApplied(content, closingIndex, name, open, after);
  }

  /** A comment, doctype or processing instruction leaves the open tags as they are. */
  lemma IgnoredTagStep(content: string, i: nat, rawTag: string, open: seq<string>, next: nat)
    requires ShouldIgnoreTag(rawTag) && Unquoted(rawTag)
    requires WrittenAt(content, i, "<" + rawTag + ">") && next == i + |rawTag| + 2
    ensures i < |content|
    ensures StepAt(content, i, open) == Continue(next, open)
  {
    UnquotedTagStep(content, i, rawTag, i + |rawTag| + 1, open);
  }

  /** A comment whose body has no quote and no `>` leaves the open tags as they are. */
  lemma CommentStep(content: string, i: nat, body: string, open: seq<string>, next: nat)
    requires Unquoted(body) && WrittenAt(content, i, CommentTag(body)) && next == i + |CommentTag(body)|
    ensures i < |content|
    ensures StepAt(content, i, open) == Continue(next, open)
  {
    var rawTag := CommentPrefix + body;
    assert rawTag[..|CommentPrefix|] == CommentPrefix;
    assert forall k :: |CommentPrefix| <= k < |rawTag| ==> rawTag[k] == body[k - |CommentPrefix|];
    IgnoredTagStep(content, i, rawTag, open, next);
  }

  /** The closing tag `endTag` occurs in `body + endTag` only at its end: the body may hold
      `<`, but never the closing tag itself. */
  predicate EndsOnlyAtEnd(body: string, endTag: string) {
    forall k :: 0 <= k < |body| ==> !OccursAt(body + endTag, endTag, k)
  }

  /** A body without `<` ends only at the closing tag after it. */
  lemma NoTagStartEndsOnlyAtEnd(body: string, endTag: string)
    requires NoTagStart(body) && endTag != [] && endTag[0] == '<'
    ensures EndsOnlyAtEnd(body, endTag)
  {
    forall k | 0 <= k < |body|
      ensures !OccursAt(body + endTag, endTag, k)
    {
      if k + |endTag| <= |body + endTag| {
        assert (body + endTag)[k..k + |endTag|][0] == body[k] != endTag[0];
      }
    }
  }

  /** Where `text` is written in `content`, `p` occurs in `text` exactly where it occurs in
      `content`. */
  lemma OccursWithin(content: string, i: nat, text: string, p: string, j: nat)
    requires WrittenAt(content, i, text) && j + |p| <= |text|
    ensures OccursAt(content, p, i + j) == OccursAt(text, p, j)
  {
    forall k | j <= k < j + |p|
      ensures content[i + k] == text[k]
    {
      assert content[i + k] == content[i..i + |text|][k];
    }
    assert content[i + j..i + j + |p|] == text[j..j + |p|];
  }

  /** The first `</name>` after the `>` of a raw-text opening tag is the one that closes a
      body in which the closing tag does not occur earlier. */
  lemma RawTextEndFound(content: string, close: nat, body: string, endTag: string)
    requires close < |content| && content[close] == '>'
    requires endTag != [] && endTag[0] == '<'
    requires WrittenAt(content, close + 1, body + endTag)
    requires EndsOnlyAtEnd(body, endTag)
    ensures IndexOf(content, endTag, close) == close + 1 + |body|
  {
    var at := close + 1 + |body|;
    OccursWithin(content, close + 1, body + endTag, endTag, |body|);
    assert (body + endTag)[|body|..|body| + |endTag|] == endTag;
    forall k | close <= k < at
      ensures !OccursAt(content, endTag, k)
    {
      if k == close {
        if k + |endTag| <= |content| {
          assert content[k..k + |endTag|][0] == content[k] != endTag[0];
        }
      } else {
        OccursWithin(content, close + 1, body + endTag, endTag, k - close - 1);
      }
    }
  }

  /** A delimited `script` or `style` opening tag resumes the scan one past the end of the
      first lower-case closing tag after it. */
  lemma RawTextTagApplied(content: string, closingIndex: nat, name: string, open: seq<string>, next: nat)
    requires PlainName(name) && IsSpecialTag(Lower(name)) && closingIndex < |content|
    requires SkipSpecialTagContent(content, closingIndex, Lower(name)) != -1
    requires next == SkipSpecialTagContent(content, closingIndex, Lower(name)) + 1
    ensures TagStep(content, closingIndex, name, open) == Continue(next, open)
  {
    PlainNameSlashes(name);
    PlainNameNormalized(name);
  }

  /** A delimited `script` or `style` opening tag with no lower-case closing tag after it is
      refused. */
  lemma UnterminatedRawTextApplied(content: string, closingIndex: nat, name: string, open: seq<string>)
    requires PlainName(name) && IsSpecialTag(Lower(name)) && closingIndex < |content|
    requires SkipSpecialTagContent(content, closingIndex, Lower(name)) == -1
    ensures TagStep(content, closingIndex, name, open) == Reject
  {
    PlainNameSlashes(name);
    PlainNameNormalized(name);
  }

  /**
   * A `script` or `style` element is skipped up to its lower-case closing tag, and the
   * scan resumes one index past the end of that tag: the character right after the
   * closing tag is never examined.
   */
  lemma RawTextStep(content: string, i: nat, name: string, body: string, open: seq<string>, next: nat)
    requires PlainName(name) && IsSpecialTag(Lower(name))
    requires EndsOnlyAtEnd(body, EndTag(Lower(name)))
    requires WrittenAt(content, i, RawTextElement(name, body))
    requires next == i + |RawTextElement(name, body)| + 1
    ensures i < |content|
    ensures StepAt(content, i, open) == Continue(next, open)
  {
    var closingIndex := i + |name| + 1;
    var bodyStart := i + |OpenTag(name)|;
    RawTextParts(content, i, name, body, closingIndex, bodyStart);
    PlainNameUnquoted(name);
    UnquotedTagStep(content, i, name, closingIndex, open);
    RawTextSkipped(content, closingIndex, name, body, bodyStart);
    RawTextTagApplied(content, closingIndex, name, open, next);
  }

  /** Where the parts of a raw-text element lie: the opening tag, its `>` at `closingIndex`,
      then the body and the closing tag from `bodyStart` on. */
  lemma RawTextParts(content: string, i: nat, name: string, body: string, closingIndex: nat, bodyStart: nat)
    requires WrittenAt(content, i, RawTextElement(name, body))
    requires closingIndex == i + |name| + 1 && bodyStart == i + |OpenTag(name)|
    ensures WrittenAt(content, i, OpenTag(name))
    ensures closingIndex < |content| && content[closingIndex] == '>'
    ensures WrittenAt(content, bodyStart, body + EndTag(Lower(name)))
  {
    WrittenAtSplit(content, i, OpenTag(name), body + EndTag(Lower(name)));
    OpenTagEnd(content, i, name, closingIndex);
  }

  /** The `>` of an opening tag written at `i` is at `closingIndex`. */
  lemma OpenTagEnd(content: string, i: nat, name: string, closingIndex: nat)
    requires WrittenAt(content, i, OpenTag(name)) && closingIndex == i + |name| + 1
    ensures closingIndex < |content| && content[closingIndex] == '>'
  {
    assert content[closingIndex] == content[i..i + |OpenTag(name)|][|name| + 1];
  }

  /** The end-tag search from the `>` of a raw-text opening tag stops just past the closing
      tag that ends the body. */
  lemma RawTextSkipped(content: string, closingIndex: nat, name: string, body: string, bodyStart: nat)
    requires closingIndex < |content| && content[closingIndex] == '>'
    requires bodyStart == closingIndex + 1
    requires WrittenAt(content, bodyStart, body + EndTag(Lower(name)))
    requires EndsOnlyAtEnd(body, EndTag(Lower(name)))
    ensures SkipSpecialTagContent(content, closingIndex, Lower(name)) ==
            closingIndex + 1 + |body| + |EndTag(Lower(name))|
  {
    RawTextEndFound(content, closingIndex, body, EndTag(Lower(name)));
  }

  /** A document that is one `script` or `style` element is valid, whatever its body holds
      before the closing tag. */
  lemma RawTextElementIsValid(name: string, body: string)
    requires PlainName(name) && IsSpecialTag(Lower(name))
    requires EndsOnlyAtEnd(body, EndTag(Lower(name)))
    ensures Verdict(RawTextElement(name, body))
  {
    var content := RawTextElement(name, body);
    assert WrittenAt(content, 0, content);
    RawTextStep(content, 0, name, body, [], |content| + 1);
    ScanByPass(content, 0, [], true, |content| + 1, []);
    assert content[0] == OpenTag(name)[0];
    TagStartNotBlank(content);
  }

  /** A `script` or `style` opening tag whose lower-case closing tag never follows is
      refused. */
  lemma UnterminatedRawTextStep(content: string, i: nat, name: string, open: seq<string>)
    requires PlainName(name) && IsSpecialTag(Lower(name))
    requires WrittenAt(content, i, OpenTag(name))
    requires forall k :: i <= k ==> !OccursAt(content, EndTag(Lower(name)), k)
    ensures i < |content|
    ensures StepAt(content, i, open) == Reject
  {
    PlainNameUnquoted(name);
    var closingIndex := i + |name| + 1;
    UnquotedTagStep(content, i, name, closingIndex, open);
    UnterminatedRawTextApplied(content, closingIndex, name, open);
  }

  /** A `<` with no `>` anywhere after it is refused. */
  lemma MalformedTagStep(content: string, i: nat, open: seq<string>)
    requires i < |content| && content[i] == '<'
    requires forall k :: i < k < |content| ==> content[k] != '>'
    ensures StepAt(content, i, open) == Reject
  {
  }

  /** Text without `<` is stepped over. */
  lemma {:induction false} ScanSkipsText(content: string, i: nat, j: nat, open: seq<string>)
    requires i <= j <= |content|
    requires NoTagStart(content[i..j])
    ensures ScanFrom(content, i, open) == ScanFrom(content, j, open)
    decreases j - i
  {
    if i < j {
      assert content[i..j][0] == content[i];
      assert content[i + 1..j] == content[i..j][1..];
      ScanSkipsText(content, i + 1, j, open);
      TextStep(content, i, j, open);
    }
  }

  /** A character other than `<` is stepped over: the verdict from it is the verdict from
      the next index, and so from any index `j` that verdict equals. */
  lemma TextStep(content: string, i: nat, j: nat, open: seq<string>)
    requires i < |content| && content[i] != '<'
    requires ScanFrom(content, i + 1, open) == ScanFrom(content, j, open)
    ensures ScanFrom(content, i, open) == ScanFrom(content, j, open)
  {
    assert StepAt(content, i, open) == Continue(i + 1, open);
    ScanByPass(content, i, open, true, i + 1, open);
  }

  /** The grammar of documents the scan accepts: text without `<`, attribute-free elements
      whose name is neither void nor raw text, void tags, `<name/>` tags and comments without
      quotes or `>`; `WellFormed` states these side conditions. */
  datatype Markup =
    | Empty
    | Text(text: string, rest: Markup)
    | Element(name: string, closeName: string, inner: Markup, rest: Markup)
    | Void(name: string, rest: Markup)
    | SelfClosed(name: string, rest: Markup)
    | Comment(body: string, rest: Markup)

  function Render(m: Markup): string {
    match m
    case Empty => ""
    case Text(text, rest) => text + Render(rest)
    case Element(name, closeName, inner, rest) =>
      OpenTag(name) + Render(inner) + CloseTag(closeName) + Render(rest)
    case Void(name, rest) => OpenTag(name) + Render(rest)
    case SelfClosed(name, rest) => SelfClosedTag(name) + Render(rest)
    case Comment(body, rest) => CommentTag(body) + Render(rest)
  }

  /**
   * The parts are written the way the validator expects: text has no `<`; an element is an
   * ordinary one (neither void nor `script`/`style`) closed by its own name in any case; a
   * void element has no closing tag; a comment body has no quote and no `>`.
   */
  predicate WellFormed(m: Markup) {
    match m
    case Empty => true
    case Text(text, rest) => NoTagStart(text) && WellFormed(rest)
    case Element(name, closeName, inner, rest) =>
      && PlainName(name) && PlainName(closeName) && Lower(name) == Lower(closeName)
      && !IsSelfClosingTag(name) && !IsSpecialTag(Lower(name))
      && WellFormed(inner) && WellFormed(rest)
    case Void(name, rest) => PlainName(name) && IsSelfClosingTag(name) && WellFormed(rest)
    case SelfClosed(name, rest) => PlainName(name) && !IsSpecialTag(Lower(name)) && WellFormed(rest)
    case Comment(body, rest) => Unquoted(body) && WellFormed(rest)
  }

  /** The scan resumes after an ordinary element's opening tag with its name pushed. */
  lemma ScanOpeningTag(content: string, i: nat, name: string, open: seq<string>, next: nat)
    requires PlainName(name) && !IsSelfClosingTag(name) && !IsSpecialTag(Lower(name))
    requires WrittenAt(content, i, OpenTag(name)) && next == i + |OpenTag(name)|
    ensures ScanFrom(content, i, open) == ScanFrom(content, next, [Lower(name)] + open)
  {
    OpeningTagStep(content, i, name, open, next);
    ScanByPass(content, i, open, true, next, [Lower(name)] + open);
  }

  /** The scan resumes after a closing tag that matches the innermost open tag with that
      tag popped. */
  lemma ScanMatchingClosingTag(content: string, i: nat, name: string, open: seq<string>, next: nat)
    requires PlainName(name) && !IsSelfClosingTag(name) && open != [] && open[0] == Lower(name)
    requires WrittenAt(content, i, CloseTag(name)) && next == i + |CloseTag(name)|
    ensures ScanFrom(content, i, open) == ScanFrom(content, next, open[1..])
  {
    ClosingTagStep(content, i, name, open, next);
    ScanByPass(content, i, open, true, next, open[1..]);
  }

  /** The scan goes on after a void element, a tag written `<name/>` or a comment with the
      open tags as they were, at the rest of the document. */
  lemma ScanUnchangingTag(content: string, i: nat, m: Markup, open: seq<string>, next: nat)
    requires m.Void? || m.SelfClosed? || m.Comment?
    requires WellFormed(m) && WrittenAt(content, i, Render(m))
    requires next == i + |Render(m)| - |Render(m.rest)|
    ensures ScanFrom(content, i, open) == ScanFrom(content, next, open)
    ensures WrittenAt(content, next, Render(m.rest))
  {
    match m
    case Void(name, rest) =>
      WrittenAtSplit(content, i, OpenTag(name), Render(rest));
      ScanVoidTag(content, i, name, open, next);
    case SelfClosed(name, rest) =>
      WrittenAtSplit(content, i, SelfClosedTag(name), Render(rest));
      ScanSelfClosedTag(content, i, name, open, next);
    case Comment(body, rest) =>
      WrittenAtSplit(content, i, CommentTag(body), Render(rest));
      ScanComment(content, i, body, open, next);
  }

  /** The scan goes on after a void element with the open tags as they were. */
  lemma ScanVoidTag(content: string, i: nat, name: string, open: seq<string>, next: nat)
    requires PlainName(name) && IsSelfClosingTag(name)
    requires WrittenAt(content, i, OpenTag(name)) && next == i + |OpenTag(name)|
    ensures ScanFrom(content, i, open) == ScanFrom(content, next, open)
  {
    VoidTagStep(content, i, name, open, next);
    ScanByPass(content, i, open, true, next, open);
  }

  /** The scan goes on after `<name/>`, for a name other than `script` or `style`, with the
      open tags as they were. */
  lemma ScanSelfClosedTag(content: string, i: nat, name: string, open: seq<string>, next: nat)
    requires PlainName(name) && !IsSpecialTag(Lower(name))
    requires WrittenAt(content, i, SelfClosedTag(name)) && next == i + |SelfClosedTag(name)|
    ensures ScanFrom(content, i, open) == ScanFrom(content, next, open)
  {
    SelfClosedTagStep(content, i, name, open, next);
    ScanByPass(content, i, open, true, next, open);
  }

  /** The scan goes on after a comment whose body holds no quote and no `>` with the open
      tags as they were. */
  lemma ScanComment(content: string, i: nat, body: string, open: seq<string>, next: nat)
    requires Unquoted(body)
    requires WrittenAt(content, i, CommentTag(body)) && next == i + |CommentTag(body)|
    ensures ScanFrom(content, i, open) == ScanFrom(content, next, open)
  {
    CommentStep(content, i, body, open, next);
    ScanByPass(content, i, open, true, next, open);
  }

  /** Text without `<` written at `i` is stepped over, up to the rest of the document. */
  lemma ScanText(content: string, i: nat, m: Markup, open: seq<string>, next: nat)
    requires m.Text? && WellFormed(m) && WrittenAt(content, i, Render(m))
    requires next == i + |m.text|
    ensures ScanFrom(content, i, open) == ScanFrom(content, next, open)
    ensures WrittenAt(content, next, Render(m.rest))
  {
    WrittenAtSplit(content, i, m.text, Render(m.rest));
    assert content[i..next] == m.text;
    ScanSkipsText(content, i, next, open);
  }

  /** Scanning a well-formed part, written from `i` to `end`, leaves the open tags as they
      were. */
  lemma {:induction false} ScanRendered(m: Markup, content: string, i: nat, end: nat, open: seq<string>)
    requires WellFormed(m) && WrittenAt(content, i, Render(m)) && end == i + |Render(m)|
    ensures ScanFrom(content, i, open) == ScanFrom(content, end, open)
    decreases m
  {
    match m
    case Empty =>
    case Text(text, rest) =>
      var next := i + |text|;
      ScanText(content, i, m, open, next);
      ScanRendered(rest, content, next, end, open);
    case Element(name, closeName, inner, rest) =>
      ScanElement(m, content, i, end, open);
    case _ =>
      var next := i + |Render(m)| - |Render(m.rest)|;
      ScanUnchangingTag(content, i, m, open, next);
      ScanRendered(m.rest, content, next, end, open);
  }

  /** Where the parts of an element written at `i` lie. */
  lemma ElementParts(m: Markup, content: string, i: nat, bodyStart: nat, closeStart: nat, restStart: nat)
    requires m.Element? && WrittenAt(content, i, Render(m))
    requires bodyStart == i + |OpenTag(m.name)| && closeStart == bodyStart + |Render(m.inner)|
    requires restStart == closeStart + |CloseTag(m.closeName)|
    ensures WrittenAt(content, i, OpenTag(m.name))
    ensures WrittenAt(content, bodyStart, Render(m.inner))
    ensures WrittenAt(content, closeStart, CloseTag(m.closeName))
    ensures WrittenAt(content, restStart, Render(m.rest))
  {
    var openTag, body, closeTag := OpenTag(m.name), Render(m.inner), CloseTag(m.closeName);
    WrittenAtSplit(content, i, openTag + body + closeTag, Render(m.rest));
    WrittenAtSplit(content, i, openTag + body, closeTag);
    WrittenAtSplit(content, i, openTag, body);
  }

  /** An element pushes its name, its content leaves the stack as it was, and its closing tag
      pops the name again. */
  lemma {:induction false} ScanElement(m: Markup, content: string, i: nat, end: nat, open: seq<string>)
    requires m.Element? && WellFormed(m) && WrittenAt(content, i, Render(m)) && end == i + |Render(m)|
    ensures ScanFrom(content, i, open) == ScanFrom(content, end, open)
    decreases m, 0
  {
    var bodyStart := i + |OpenTag(m.name)|;
    var closeStart := bodyStart + |Render(m.inner)|;
    var restStart := closeStart + |CloseTag(m.closeName)|;
    ElementParts(m, content, i, bodyStart, closeStart, restStart);
    var inside := [Lower(m.name)] + open;
    ScanOpeningTag(content, i, m.name, open, bodyStart);
    ScanRendered(m.inner, content, bodyStart, closeStart, inside);
    SelfClosingIgnoresCase(m.name);
    SelfClosingIgnoresCase(m.closeName);
    ScanMatchingClosingTag(content, closeStart, m.closeName, inside, restStart);
    ScanRendered(m.rest, content, restStart, end, open);
  }

  /** The scan of a `Markup` document ends with no tag open. */
  lemma ScanWellNested(m: Markup)
    requires WellFormed(m)
    ensures ScanFrom(Render(m), 0, [])
  {
    var content := Render(m);
    assert WrittenAt(content, 0, content);
    ScanRendered(m, content, 0, |content|, []);
  }

  /** A non-blank `Markup` document is valid. */
  lemma WellNestedIsValid(m: Markup)
    requires WellFormed(m) && !IsBlank(Render(m))
    ensures Verdict(Render(m))
  {
    TrimEmptyIffBlank(Render(m));
    ScanWellNested(m);
  }

  /** A blank document is invalid, whatever else it holds. */
  lemma BlankIsInvalid(content: string)
    requires IsBlank(content)
    ensures !Verdict(content)
  {
    TrimEmptyIffBlank(content);
  }
  /** An ordinary element left open makes a document invalid, whatever `Markup` document
      follows its opening tag. */
  lemma UnclosedElementIsInvalid(name: string, m: Markup)
    requires PlainName(name) && !IsSelfClosingTag(name) && !IsSpecialTag(Lower(name))
    requires WellFormed(m)
    ensures !Verdict(OpenTag(name) + Render(m))
  {
    var content := OpenTag(name) + Render(m);
    var bodyStart := |OpenTag(name)|;
    assert WrittenAt(content, 0, content);
    WrittenAtSplit(content, 0, OpenTag(name), Render(m));
    // Written as `ScanOpeningTag` states the stack after the push: the name on top of [].
    var inside := [Lower(name)] + [];
    ScanOpeningTag(content, 0, name, [], bodyStart);
    ScanRendered(m, content, bodyStart, |content|, inside);
  }

  /** A closing tag with no tag open is refused: after a `Markup` document, a stray closing
      tag makes the document invalid, whatever follows it. */
  lemma StrayClosingTagIsInvalid(m: Markup, name: string, tail: string)
    requires WellFormed(m) && PlainName(name)
    ensures !Verdict(Render(m) + CloseTag(name) + tail)
  {
    var content := Render(m) + CloseTag(name) + tail;
    var at := |Render(m)|;
    assert WrittenAt(content, 0, content);
    WrittenAtSplit(content, 0, Render(m) + CloseTag(name), tail);
    WrittenAtSplit(content, 0, Render(m), CloseTag(name));
    ScanRendered(m, content, 0, at, []);
    ClosingTagStep(content, at, name, [], at + |CloseTag(name)|);
    ScanByPass(content, at, [], false, at, []);
  }

  /** Where the parts of `<a><b>...</a>` lie. */
  lemma CrossedParts(a: string, b: string, m: Markup, tail: string, p1: nat, p2: nat, p3: nat)
    requires p1 == |OpenTag(a)| && p2 == p1 + |OpenTag(b)| && p3 == p2 + |Render(m)|
    ensures var content := OpenTag(a) + (OpenTag(b) + (Render(m) + (CloseTag(a) + tail)));
            && WrittenAt(content, 0, OpenTag(a)) && WrittenAt(content, p1, OpenTag(b))
            && WrittenAt(content, p2, Render(m)) && WrittenAt(content, p3, CloseTag(a))
  {
    var afterB := Render(m) + (CloseTag(a) + tail);
    var afterA := OpenTag(b) + afterB;
    var content := OpenTag(a) + afterA;
    assert WrittenAt(content, 0, content);
    WrittenAtSplit(content, 0, OpenTag(a), afterA);
    WrittenAtSplit(content, p1, OpenTag(b), afterB);
    WrittenAtSplit(content, p2, Render(m), CloseTag(a) + tail);
    WrittenAtSplit(content, p3, CloseTag(a), tail);
  }

  /** Tags closed out of order are refused: `<a><b>...</a>` is invalid, whatever `Markup`
      document stands between and whatever follows. */
  lemma CrossedTagsAreInvalid(a: string, b: string, m: Markup, tail: string)
    requires PlainName(a) && !IsSelfClosingTag(a) && !IsSpecialTag(Lower(a))
    requires PlainName(b) && !IsSelfClosingTag(b) && !IsSpecialTag(Lower(b))
    requires Lower(a) != Lower(b) && WellFormed(m)
    ensures !Verdict(OpenTag(a) + (OpenTag(b) + (Render(m) + (CloseTag(a) + tail))))
  {
    var content := OpenTag(a) + (OpenTag(b) + (Render(m) + (CloseTag(a) + tail)));
    var p1 := |OpenTag(a)|;
    var p2 := p1 + |OpenTag(b)|;
    var p3 := p2 + |Render(m)|;
    CrossedParts(a, b, m, tail, p1, p2, p3);
    // Written as `ScanOpeningTag` states the stack after the push: `a` on top of [].
    var inA := [Lower(a)] + [];
    var inB := [Lower(b)] + inA;
    ScanOpeningTag(content, 0, a, [], p1);
    ScanOpeningTag(content, p1, b, inA, p2);
    ScanRendered(m, content, p2, p3, inB);
    ClosingTagStep(content, p3, a, inB, p3 + |CloseTag(a)|);
    ScanByPass(content, p3, inB, false, p3, []);
  }

  /** A document that starts with a tag is not blank. */
  lemma TagStartNotBlank(content: string)
    requires content != [] && content[0] == '<'
    ensures Trim(content) != []
  {
    TrimEmptyIffBlank(content);
  }

  /** The scan that starts just past the `<` of a document's last tag steps over the rest as
      text. */
  lemma ScanPastTagStart(content: string, i: nat, tagName: string, open: seq<string>)
    requires PlainName(tagName) && WrittenAt(content, i, OpenTag(tagName))
    requires i + |OpenTag(tagName)| == |content|
    ensures ScanFrom(content, i + 1, open) == (open == [])
  {
    assert content[i + 1..|content|] == OpenTag(tagName)[1..];
    ScanSkipsText(content, i + 1, |content|, open);
  }

  /**
   * The character right after a `script` or `style` element's closing tag is never
   * examined, so a tag that starts there is not seen: the document below is valid although
   * it ends with an opening tag.
   */
  lemma RawTextHidesNextTag(name: string, body: string, tagName: string)
    requires PlainName(name) && IsSpecialTag(Lower(name))
    requires EndsOnlyAtEnd(body, EndTag(Lower(name))) && PlainName(tagName)
    ensures Verdict(RawTextElement(name, body) + OpenTag(tagName))
  {
    var content := RawTextElement(name, body) + OpenTag(tagName);
    var at := |RawTextElement(name, body)|;
    assert WrittenAt(content, 0, content);
    WrittenAtSplit(content, 0, RawTextElement(name, body), OpenTag(tagName));
    RawTextStep(content, 0, name, body, [], at + 1);
    ScanByPass(content, 0, [], true, at + 1, []);
    ScanPastTagStart(content, at, tagName, []);
    TagStartNotBlank(content);
  }

  /** Where the parts of `<name>` followed by `mid` and `tail` lie. */
  lemma InsideParts(name: string, mid: string, tail: string, p1: nat, p2: nat)
    requires p1 == |OpenTag(name)| && p2 == p1 + |mid|
    ensures var content := OpenTag(name) + (mid + tail);
            && WrittenAt(content, 0, OpenTag(name)) && WrittenAt(content, p1, mid)
            && WrittenAt(content, p2, tail) && p2 + |tail| == |content|
  {
    var content := OpenTag(name) + (mid + tail);
    assert WrittenAt(content, 0, content);
    WrittenAtSplit(content, 0, OpenTag(name), mid + tail);
    WrittenAtSplit(content, p1, mid, tail);
  }

  /**
   * A `script` or `style` element inside an ordinary element makes the document invalid:
   * the character after the raw-text closing tag is the `<` of the outer closing tag, which
   * is skipped, so the outer element is never closed.
   */
  lemma RawTextInsideElementIsInvalid(name: string, raw: string, body: string)
    requires PlainName(name) && !IsSelfClosingTag(name) && !IsSpecialTag(Lower(name))
    requires PlainName(raw) && IsSpecialTag(Lower(raw))
    requires EndsOnlyAtEnd(body, EndTag(Lower(raw)))
    ensures !Verdict(OpenTag(name) + (RawTextElement(raw, body) + CloseTag(name)))
  {
    var content := OpenTag(name) + (RawTextElement(raw, body) + CloseTag(name));
    var p1 := |OpenTag(name)|;
    var p2 := p1 + |RawTextElement(raw, body)|;
    InsideParts(name, RawTextElement(raw, body), CloseTag(name), p1, p2);
    // Written as `ScanOpeningTag` states the stack after the push: the name on top of [].
    var inside := [Lower(name)] + [];
    ScanOpeningTag(content, 0, name, [], p1);
    RawTextThenClosingTag(content, p1, raw, body, name, inside, p2);
  }

  /** From a raw-text element followed by a closing tag that ends the document, the scan
      succeeds only when no tag was open: the closing tag is stepped over as text. */
  lemma RawTextThenClosingTag(content: string, i: nat, raw: string, body: string, name: string,
                              open: seq<string>, at: nat)
    requires PlainName(raw) && IsSpecialTag(Lower(raw))
    requires EndsOnlyAtEnd(body, EndTag(Lower(raw))) && PlainName(name)
    requires WrittenAt(content, i, RawTextElement(raw, body)) && at == i + |RawTextElement(raw, body)|
    requires WrittenAt(content, at, CloseTag(name)) && at + |CloseTag(name)| == |content|
    ensures ScanFrom(content, i, open) == (open == [])
  {
    RawTextStepBefore(content, i, raw, body, open, at);
    ClosingTagRestIsText(content, at, name);
    ScanSkipsText(content, at + 1, |content|, open);
    ScanByPass(content, i, open, true, at + 1, open);
  }

  /** A raw-text element written at `i` and followed by at least one more character is
      stepped over, and the scan resumes one past that character. */
  lemma RawTextStepBefore(content: string, i: nat, raw: string, body: string, open: seq<string>, at: nat)
    requires PlainName(raw) && IsSpecialTag(Lower(raw))
    requires EndsOnlyAtEnd(body, EndTag(Lower(raw)))
    requires WrittenAt(content, i, RawTextElement(raw, body)) && at == i + |RawTextElement(raw, body)|
    requires at < |content|
    ensures i < |content| && StepAt(content, i, open) == Continue(at + 1, open)
  {
    RawTextStep(content, i, raw, body, open, at + 1);
  }

  /** After the `<` of a closing tag that ends the document, no tag starts. */
  lemma ClosingTagRestIsText(content: string, at: nat, name: string)
    requires PlainName(name) && WrittenAt(content, at, CloseTag(name))
    requires at + |CloseTag(name)| == |content|
    ensures NoTagStart(content[at + 1..|content|])
  {
    assert content[at + 1..|content|] == CloseTag(name)[1..];
  }

  /**
   * Closing a void element is refused even inside an open element: the closing tag is
   * refused because its name is void, whatever follows it.
   */
  lemma ClosedVoidInsideElementIsInvalid(name: string, void: string, tail: string)
    requires PlainName(name) && !IsSelfClosingTag(name) && !IsSpecialTag(Lower(name))
    requires PlainName(void) && IsSelfClosingTag(void)
    ensures !Verdict(OpenTag(name) + (CloseTag(void) + tail))
  {
    var content := OpenTag(name) + (CloseTag(void) + tail);
    var p1 := |OpenTag(name)|;
    var p2 := p1 + |CloseTag(void)|;
    InsideParts(name, CloseTag(void), tail, p1, p2);
    // Written as `ScanOpeningTag` states the stack after the push: the name on top of [].
    var inside := [Lower(name)] + [];
    ScanOpeningTag(content, 0, name, [], p1);
    ClosingTagStep(content, p1, void, inside, p2);
    ScanByPass(content, p1, inside, false, p1, []);
  }
}
