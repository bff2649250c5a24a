/** The nesting stack of open tags and the rules for opening and closing tags. */
module TagStack {
  import opened JavaStrings
  import opened Stack

  /** Whether a tag was accepted, and the stack of open tag names afterwards (top first). */
  datatype TagOutcome = TagOutcome(accepted: bool, open: seq<string>)

  /** A tag name holding `<` or `>` is malformed. */
  predicate ContainsInvalidCharacters(tagName: string) {
    '<' in tagName || '>' in tagName
  }

  /** A name the stack will accept: non-empty and free of angle brackets. */
  predicate IsAcceptableName(tagName: string) {
    tagName != [] && !ContainsInvalidCharacters(tagName)
  }

  /** Lower-casing a name, as the validator does before it reaches the stack, neither makes
      it malformed nor repairs it. */
  lemma LowerKeepsAcceptance(tagName: string)
    ensures ContainsInvalidCharacters(Lower(tagName)) == ContainsInvalidCharacters(tagName)
    ensures IsAcceptableName(Lower(tagName)) == IsAcceptableName(tagName)
  {
  }

  /**
   * The effect of one tag on the stack of open names: only an acceptable name is accepted;
   * a self-closing tag leaves the stack alone and is refused when written as a closing tag;
   * a closing tag is accepted only when it names the innermost open tag, which it pops; an
   * opening tag pushes its name.
   */
  function TagTransition(open: seq<string>, rawTag: string, tagName: string, isSelfClosing: bool): (outcome: TagOutcome)
    ensures outcome.accepted ==> IsAcceptableName(tagName)
    ensures isSelfClosing || !IsAcceptableName(tagName) ==> outcome.open == open
    ensures isSelfClosing && IsAcceptableName(tagName) ==> outcome.accepted == !StartsWith(rawTag, "/")
    ensures !isSelfClosing && StartsWith(rawTag, "/") && outcome.accepted ==>
              open != [] && open[0] == tagName && outcome.open == open[1..]
    ensures !isSelfClosing && StartsWith(rawTag, "/") && IsAcceptableName(tagName) && open != [] ==>
              outcome.accepted == (open[0] == tagName)
    ensures !isSelfClosing && !StartsWith(rawTag, "/") ==>
              outcome.accepted == IsAcceptableName(tagName) &&
              (outcome.accepted ==> outcome.open == [tagName] + open)
  {
    if !IsAcceptableName(tagName) then TagOutcome(false, open)
    else if isSelfClosing then TagOutcome(!StartsWith(rawTag, "/"), open)
    else if StartsWith(rawTag, "/") && open == [] then TagOutcome(false, open)
    else if StartsWith(rawTag, "/") then TagOutcome(tagName == open[0], open[1..])
    else TagOutcome(true, [tagName] + open)
  }

  /** Every name on the stack was accepted by `IsAcceptableName`, and stays so. */
  lemma TransitionKeepsNamesAcceptable(open: seq<string>, rawTag: string, tagName: string, isSelfClosing: bool)
    requires forall k :: 0 <= k < |open| ==> IsAcceptableName(open[k])
    ensures var o := TagTransition(open, rawTag, tagName, isSelfClosing).open;
            forall k :: 0 <= k < |o| ==> IsAcceptableName(o[k])
  {
  }

  /** Opening a tag and then closing it by the same name accepts both and restores the
      stack. */
  lemma OpenThenCloseRestores(open: seq<string>, rawTag: string, tagName: string)
    requires IsAcceptableName(tagName) && !StartsWith(rawTag, "/")
    ensures var o := TagTransition(open, rawTag, tagName, false);
            o.accepted && TagTransition(o.open, "/" + rawTag, tagName, false) == TagOutcome(true, open)
  {
  }

  /** A tag changes the stack by at most one entry: the stack never grows or shrinks by
      more than one tag. */
  lemma TransitionMovesByOne(open: seq<string>, rawTag: string, tagName: string, isSelfClosing: bool)
    ensures var o := TagTransition(open, rawTag, tagName, isSelfClosing).open;
            o == open || o == [tagName] + open || (open != [] && o == open[1..])
  {
  }

  /** Drives the nesting stack with the tags of a document. */
  class TagStackProcessor {
    const stack: MyStack<string>

    ghost predicate Valid()
      reads this, stack, stack.Repr
    {
      stack.Valid()
    }

    /** The open tag names, innermost first. */
    ghost function Tags(): seq<string>
      reads this, stack
    {
      stack.Contents
    }

    constructor ()
      ensures Valid() && fresh(stack) && fresh(stack.Repr)
      ensures Tags() == []
    {
      stack := new MyStack();
    }

    /** Applies one tag: malformed names are refused, self-closing tags are accepted unless
        written as closing tags, closing tags pop and must match, opening tags push. */
    method ProcessTag(rawTag: string, tagName: string, isSelfClosing: bool) returns (ok: bool)
      requires Valid()
      modifies stack
      ensures Valid() && fresh(stack.Repr - old(stack.Repr))
      ensures TagOutcome(ok, Tags()) == TagTransition(old(Tags()), rawTag, tagName, isSelfClosing)
      ensures !IsAcceptableName(tagName) ==> !ok && Tags() == old(Tags())
      ensures IsAcceptableName(tagName) && isSelfClosing ==>
                ok == !StartsWith(rawTag, "/") && Tags() == old(Tags())
      ensures IsAcceptableName(tagName) && !isSelfClosing && StartsWith(rawTag, "/") ==>
                if old(Tags()) == [] then !ok && Tags() == []
                else ok == (tagName == old(Tags())[0]) && Tags() == old(Tags())[1..]
      ensures IsAcceptableName(tagName) && !isSelfClosing && !StartsWith(rawTag, "/") ==>
                ok && Tags() == [tagName] + old(Tags())
    {
      if tagName == [] || ContainsInvalidCharacters(tagName) {
        return false;
      }
      var isClosing := StartsWith(rawTag, "/");
      if isSelfClosing {
        return !isClosing;
      }
      var empty := stack.IsEmpty();
      if isClosing && empty {
        return false;
      }
      if isClosing {
        var top := stack.Pop();
        return tagName == top;
      }
      stack.Push(tagName);
      return true;
    }

    /** Empties the stack and returns what it held, innermost first. */
    method GetRemainingUnclosedTags() returns (remainingTags: seq<string>)
      requires Valid()
      modifies stack
      ensures Valid() && Tags() == []
      ensures remainingTags == old(Tags())
    {
      remainingTags := [];
      var empty := stack.IsEmpty();
      while !empty
        invariant stack.Valid()
        invariant |remainingTags| <= |old(stack.Contents)|
        invariant remainingTags == old(stack.Contents)[..|remainingTags|]
        invariant stack.Contents == old(stack.Contents)[|remainingTags|..]
        invariant empty <==> stack.Contents == []
        decreases |stack.Contents|
      {
        ghost var taken := old(stack.Contents)[..|remainingTags| + 1];
        var tag := stack.Pop();
        assert taken == remainingTags + [tag];
        remainingTags := remainingTags + [tag];
        empty := stack.IsEmpty();
      }
    }

    /** Holds exactly when no tag is open. */
    method IsStackEmpty() returns (empty: bool)
      requires Valid()
      ensures empty <==> Tags() == []
    {
      empty := stack.IsEmpty();
    }
  }
}
