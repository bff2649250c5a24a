/** Pure classification of a tag's raw text: its name, and whether it is ignorable,
    a void element or a raw-text container. */
module TagExtractor {
  import opened JavaStrings

  /** The void elements: they never take a closing tag. */
  const SelfClosingTags: set<string> :=
    {"area", "base", "br", "col", "embed", "hr", "img", "input",
     "link", "meta", "param", "source", "track", "wbr"}

  const CommentPrefix := "!--"
  const DoctypePrefix := "!DOCTYPE"
  const ProcessingInstructionPrefix := "?"

  const ScriptTag := "script"
  const StyleTag := "style"

  /** The characters that end a tag name. */
  predicate IsNameDelimiter(c: char) {
    IsWhitespace(c) || c == '>' || c == '/'
  }

  /** The leading part of `tagContent` before its first delimiter, or all of it when it
      has none. The casing is kept as written. */
  function ExtractTagName(tagContent: string): (name: string)
    ensures |name| <= |tagContent| && name == tagContent[..|name|]
    ensures forall k :: 0 <= k < |name| ==> !IsNameDelimiter(name[k])
    ensures |name| < |tagContent| ==> IsNameDelimiter(tagContent[|name|])
  {
    if tagContent == [] then []
    else if IsNameDelimiter(tagContent[0]) then []
    else [tagContent[0]] + ExtractTagName(tagContent[1..])
  }

  /** Comments (`!--`, case-sensitive), doctypes (`!DOCTYPE`, in any case) and processing
      instructions (`?`) are skipped by the validator. */
  predicate ShouldIgnoreTag(tagContent: string): (ignored: bool)
    ensures ignored ==> tagContent != [] && (tagContent[0] == '!' || tagContent[0] == '?')
  {
    || StartsWith(tagContent, CommentPrefix)
    || StartsWith(Upper(tagContent), DoctypePrefix)
    || StartsWith(tagContent, ProcessingInstructionPrefix)
  }

  /** Membership in the void-element set, ignoring case: some void-element name equals
      `tagName` up to case. */
  predicate IsSelfClosingTag(tagName: string): (isVoid: bool)
    ensures isVoid <==> exists n :: n in SelfClosingTags && EqualsIgnoreCase(n, tagName)
  {
    VoidLookupIgnoresCase(tagName);
    Lower(tagName) in SelfClosingTags
  }

  /** The void-element names are written in lower case, so that the lower-cased name looked
      up in the set matches in any case. */
  lemma VoidNamesAreLowerCase()
    ensures forall n :: n in SelfClosingTags ==> Lower(n) == n
  {
    forall n | n in SelfClosingTags
      ensures Lower(n) == n
    {
      LowerOfLowerCaseText(n);
    }
  }

  /** Looking up the lower-cased name finds exactly the void-element names equal to it up to
      case. */
  lemma VoidLookupIgnoresCase(tagName: string)
    ensures Lower(tagName) in SelfClosingTags <==>
            exists n :: n in SelfClosingTags && EqualsIgnoreCase(n, tagName)
  {
    VoidNamesAreLowerCase();
    if Lower(tagName) in SelfClosingTags {
      LowerIdempotent(tagName);
      EqualsIgnoreCaseIsLowerEquality(Lower(tagName), tagName);
    }
    forall n | n in SelfClosingTags && EqualsIgnoreCase(n, tagName)
      ensures Lower(tagName) in SelfClosingTags
    {
      EqualsIgnoreCaseIsLowerEquality(n, tagName);
    }
  }

  /** `script` or `style`, ignoring case: exactly the names that lower-case to one of them. */
  predicate IsSpecialTag(tagName: string): (special: bool)
    ensures special <==> Lower(tagName) == ScriptTag || Lower(tagName) == StyleTag
  {
    EqualsIgnoreCaseIsLowerEquality(ScriptTag, tagName);
    EqualsIgnoreCaseIsLowerEquality(StyleTag, tagName);
    RawTextNamesAreLower();
    EqualsIgnoreCase(ScriptTag, tagName) || EqualsIgnoreCase(StyleTag, tagName)
  }

  /** The extracted name is the whole input exactly when the input has no delimiter. */
  lemma ExtractTagNameWhole(tagContent: string)
    ensures ExtractTagName(tagContent) == tagContent <==>
            forall k :: 0 <= k < |tagContent| ==> !IsNameDelimiter(tagContent[k])
  {
  }

  /** A doctype is ignored whatever the case of its letters. */
  lemma DoctypeIgnoredInAnyCase(tagContent: string)
    requires |tagContent| >= |DoctypePrefix|
    requires EqualsIgnoreCase(tagContent[..|DoctypePrefix|], DoctypePrefix)
    ensures ShouldIgnoreTag(tagContent)
  {
    var n := |DoctypePrefix|;
    forall k | 0 <= k < n
      ensures Upper(tagContent)[k] == DoctypePrefix[k]
    {
      assert LowerChar(tagContent[k]) == LowerChar(DoctypePrefix[k]);
    }
    assert Upper(tagContent)[..n] == DoctypePrefix;
  }

  /** A comment is only recognised with the exact `!--` prefix. */
  lemma CommentPrefixNeedsBothDashes()
    ensures !ShouldIgnoreTag("!-x")
    ensures ShouldIgnoreTag("!-- x --")
  {
    assert Upper("!-x") == "!-X";
  }

  /** A tag that starts with a letter, a digit or `/` is never ignored. */
  lemma OrdinaryTagNotIgnored(tagContent: string)
    requires tagContent != []
    requires tagContent[0] == '/' || IsAsciiLower(tagContent[0]) || IsAsciiUpper(tagContent[0])
             || '0' <= tagContent[0] <= '9'
    ensures !ShouldIgnoreTag(tagContent)
  {
    assert Upper(tagContent)[0] != '!';
  }

  /** Void-element membership does not depend on case. */
  lemma SelfClosingIgnoresCase(tagName: string)
    ensures IsSelfClosingTag(tagName) <==> IsSelfClosingTag(Lower(tagName))
  {
    LowerIdempotent(tagName);
  }

  /** Raw-text membership does not depend on case, and is exactly `script` or `style`
      after lower-casing. */
  lemma SpecialTagIsScriptOrStyle(tagName: string)
    ensures IsSpecialTag(tagName) <==> Lower(tagName) == ScriptTag || Lower(tagName) == StyleTag
    ensures IsSpecialTag(tagName) <==> IsSpecialTag(Lower(tagName))
  {
    EqualsIgnoreCaseIsLowerEquality(ScriptTag, tagName);
    EqualsIgnoreCaseIsLowerEquality(StyleTag, tagName);
    EqualsIgnoreCaseIsLowerEquality(ScriptTag, Lower(tagName));
    EqualsIgnoreCaseIsLowerEquality(StyleTag, Lower(tagName));
    LowerIdempotent(tagName);
    RawTextNamesAreLower();
  }

  /** The raw-text element names are written in lower case. */
  lemma RawTextNamesAreLower()
    ensures Lower(ScriptTag) == ScriptTag && Lower(StyleTag) == StyleTag
  {
    assert Lower(ScriptTag) == ScriptTag;
    assert Lower(StyleTag) == StyleTag;
  }

  /** No name is both a void element and a raw-text container. */
  lemma VoidAndRawTextDisjoint(tagName: string)
    ensures !(IsSelfClosingTag(tagName) && IsSpecialTag(tagName))
  {
    RawTextNamesNotVoid();
  }

  /** Neither raw-text element name is a void-element name. */
  lemma RawTextNamesNotVoid()
    ensures ScriptTag !in SelfClosingTags && StyleTag !in SelfClosingTags
  {
  }
}
