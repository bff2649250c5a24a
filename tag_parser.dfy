/** Finding where a tag ends, and skipping the body of a raw-text element. */
module TagParser {
  import opened JavaStrings

  /** Whether the scan is inside a double-quoted or a single-quoted value. */
  datatype Quotes = Quotes(inDouble: bool, inSingle: bool)

  const Clear := Quotes(false, false)

  /** The quote state after reading `c`: `"` toggles double quotes unless inside single
      quotes, `'` toggles single quotes unless inside double quotes. A backslash escapes
      nothing. */
  function AfterChar(q: Quotes, c: char): Quotes {
    if c == '"' && !q.inSingle then q.(inDouble := !q.inDouble)
    else if c == '\'' && !q.inDouble then q.(inSingle := !q.inSingle)
    else q
  }

  /** The quote state reached by scanning `s[start..k]` from a clear state. */
  function QuotesBefore(s: string, start: nat, k: nat): Quotes
    requires start <= k <= |s|
    decreases k - start
  {
    if k == start then Clear else AfterChar(QuotesBefore(s, start, k - 1), s[k - 1])
  }

  /** Index `k` holds a `>` that lies outside every quoted value of a scan begun at `start`. */
  predicate IsTagEnd(s: string, start: nat, k: nat)
    requires start <= k < |s|
  {
    s[k] == '>' && QuotesBefore(s, start, k) == Clear
  }

  /** The first tag end at or after `k` in a scan begun at `start`, or -1. */
  function FirstTagEnd(s: string, start: nat, k: nat): (r: int)
    requires start <= k
    decreases |s| - k
    ensures r == -1 <==> forall j :: k <= j < |s| ==> !IsTagEnd(s, start, j)
    ensures r != -1 ==> k <= r < |s| && IsTagEnd(s, start, r)
    ensures r != -1 ==> forall j :: k <= j < r ==> !IsTagEnd(s, start, j)
  {
    if k >= |s| then -1
    else if IsTagEnd(s, start, k) then k
    else FirstTagEnd(s, start, k + 1)
  }

  /** The index of the `>` that closes a tag whose text begins at `start`, or -1. */
  function TagEnd(s: string, start: nat): (r: int)
    ensures r == -1 || (start <= r < |s| && s[r] == '>')
  {
    FirstTagEnd(s, start, start)
  }

  /** The quote-aware search for a tag's closing `>`, scanning from `startIndex` with two
      flags. It returns the first `>` met while neither flag is set, or -1. */
  method FindTagClosingBracket(content: string, startIndex: nat) returns (r: int)
    ensures r == TagEnd(content, startIndex)
    ensures r == -1 <==> forall k :: startIndex <= k < |content| ==> !IsTagEnd(content, startIndex, k)
    ensures r != -1 ==> startIndex <= r < |content| && content[r] == '>'
                        && QuotesBefore(content, startIndex, r) == Clear
  {
    var insideDoubleQuotes := false;
    var insideSingleQuotes := false;
    var i := startIndex;
    while i < |content|
      invariant startIndex <= i
      invariant i < |content| ==> Quotes(insideDoubleQuotes, insideSingleQuotes) == QuotesBefore(content, startIndex, i)
      invariant FirstTagEnd(content, startIndex, startIndex) == FirstTagEnd(content, startIndex, i)
      decreases |content| - i
    {
      var c := content[i];
      if c == '"' && !insideSingleQuotes {
        insideDoubleQuotes := !insideDoubleQuotes;
      } else if c == '\'' && !insideDoubleQuotes {
        insideSingleQuotes := !insideSingleQuotes;
      } else if c == '>' && !insideDoubleQuotes && !insideSingleQuotes {
        return i;
      }
      i := i + 1;
    }
    return -1;
  }

  /** Inside quotes of one kind, the other kind of quote changes nothing. */
  lemma {:induction false} NeverInBothQuotes(s: string, start: nat, k: nat)
    requires start <= k <= |s|
    ensures !(QuotesBefore(s, start, k).inDouble && QuotesBefore(s, start, k).inSingle)
    decreases k - start
  {
    if k > start {
      NeverInBothQuotes(s, start, k - 1);
    }
  }

  /** A stretch with no quote character leaves the quote state as it was. */
  lemma {:induction false} QuotesUnchangedWithoutQuoteChars(s: string, start: nat, k: nat, m: nat)
    requires start <= k <= m <= |s|
    requires forall j :: k <= j < m ==> s[j] != '"' && s[j] != '\''
    ensures QuotesBefore(s, start, m) == QuotesBefore(s, start, k)
    decreases m - k
  {
    if m > k {
      QuotesUnchangedWithoutQuoteChars(s, start, k, m - 1);
    }
  }

  /** When the text from `start` up to a `>` has no quote and no other `>`, that `>` ends
      the tag. */
  lemma PlainTagEnd(s: string, start: nat, close: nat)
    requires start <= close < |s| && s[close] == '>'
    requires forall j :: start <= j < close ==> s[j] != '"' && s[j] != '\'' && s[j] != '>'
    ensures TagEnd(s, start) == close
  {
    QuotesUnchangedWithoutQuoteChars(s, start, start, close);
    assert IsTagEnd(s, start, close);
  }

  /** A tag end with none before it is the one the search returns. */
  lemma TagEndAt(s: string, start: nat, r: nat)
    requires start <= r < |s| && IsTagEnd(s, start, r)
    requires forall j :: start <= j < r ==> !IsTagEnd(s, start, j)
    ensures TagEnd(s, start) == r
  {
  }

  /** A quote that is never matched hides every `>` after it: when the only quote character
      from `start` on is the one at `q` and no `>` comes before it, the tag has no end. */
  lemma LoneQuoteHidesTagEnd(s: string, start: nat, q: nat)
    requires start <= q < |s| && (s[q] == '"' || s[q] == '\'')
    requires forall j :: start <= j < |s| && j != q ==> s[j] != '"' && s[j] != '\''
    requires forall j :: start <= j < q ==> s[j] != '>'
    ensures TagEnd(s, start) == -1
  {
    QuotesUnchangedWithoutQuoteChars(s, start, start, q);
    assert QuotesBefore(s, start, q + 1) != Clear;
    forall j | q + 1 <= j < |s|
      ensures QuotesBefore(s, start, j) != Clear
    {
      QuotesUnchangedWithoutQuoteChars(s, start, q + 1, j);
    }
  }

  /** A `>` inside a quoted attribute value does not end the tag. */
  lemma QuotedGreaterThanSkipped()
    ensures TagEnd("a title=\">\">", 0) == 11
  {
    var s := "a title=\">\">";
    QuotesUnchangedWithoutQuoteChars(s, 0, 0, 8);
    assert QuotesBefore(s, 0, 9) == Quotes(true, false);
    assert QuotesBefore(s, 0, 10) == Quotes(true, false);
    assert QuotesBefore(s, 0, 11) == Clear;
    TagEndAt(s, 0, 11);
  }

  /** An apostrophe inside double quotes does not open a single-quoted value. */
  lemma ApostropheInsideDoubleQuotes()
    ensures TagEnd("a alt=\"it's\">", 0) == 12
  {
    var s := "a alt=\"it's\">";
    QuotesUnchangedWithoutQuoteChars(s, 0, 0, 6);
    assert QuotesBefore(s, 0, 7) == Quotes(true, false);
    QuotesUnchangedWithoutQuoteChars(s, 0, 7, 9);
    assert QuotesBefore(s, 0, 10) == Quotes(true, false);
    QuotesUnchangedWithoutQuoteChars(s, 0, 10, 11);
    assert QuotesBefore(s, 0, 12) == Clear;
    TagEndAt(s, 0, 12);
  }

  /** A backslash does not escape a quote: the value closes at the escaped quote and the `>`
      after it ends the tag. */
  lemma BackslashDoesNotEscape()
    ensures TagEnd("a=\"\\\">", 0) == 5
  {
    var s := "a=\"\\\">";
    QuotesUnchangedWithoutQuoteChars(s, 0, 0, 2);
    assert QuotesBefore(s, 0, 3) == Quotes(true, false);
    assert QuotesBefore(s, 0, 4) == Quotes(true, false);
    assert QuotesBefore(s, 0, 5) == Clear;
    TagEndAt(s, 0, 5);
  }

  /** The closing tag of a raw-text element. */
  function EndTag(tagName: string): string {
    "</" + tagName + ">"
  }

  /** The index just past the first `</tagName>` at or after `currentIndex`, or -1 when the
      literal, matched case-sensitively, does not occur. */
  function SkipSpecialTagContent(content: string, currentIndex: nat, tagName: string): (r: int)
    ensures r == -1 <==> forall k :: currentIndex <= k ==> !OccursAt(content, EndTag(tagName), k)
    ensures r != -1 ==> currentIndex + |EndTag(tagName)| <= r <= |content|
                        && OccursAt(content, EndTag(tagName), r - |EndTag(tagName)|)
    ensures r != -1 ==> forall k :: currentIndex <= k < r - |EndTag(tagName)| ==>
                          !OccursAt(content, EndTag(tagName), k)
  {
    var endTag := EndTag(tagName);
    var endIndex := IndexOf(content, endTag, currentIndex);
    if endIndex == -1 then -1 else endIndex + |endTag|
  }

  /** The end-tag search is case-sensitive: an upper-case closing tag is not found. */
  lemma SkipIsCaseSensitive()
    ensures SkipSpecialTagContent("x</SCRIPT>", 0, "script") == -1
  {
    var s := "x</SCRIPT>";
    forall k | 0 <= k
      ensures !OccursAt(s, EndTag("script"), k)
    {
      if k + |EndTag("script")| <= |s| {
        assert s[k + 2] != EndTag("script")[2];
      }
    }
  }
}
