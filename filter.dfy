/**
 * The keyword filter of the message handler: the stored patterns are tried
 * in list order against the raw message body, and the first one that
 * matches suppresses the message.
 */
module Filter {
  import opened Wrappers

  /**
   * The regular-expression engine, left abstract: whether a pattern
   * compiles, and whether a compiled pattern matches somewhere in a text.
   */
  datatype Regex = Regex(compiles: string -> bool, search: (string, string) -> bool)

  /**
   * `regexp.MatchString(pattern, text)` with its error ignored, as the
   * handler does: a pattern that does not compile reports no match.
   */
  predicate Matches(re: Regex, pattern: string, text: string) {
    re.compiles(pattern) && re.search(pattern, text)
  }

  /** Some pattern of `keywords` matches `text`. */
  predicate AnyMatches(re: Regex, keywords: seq<string>, text: string) {
    exists i :: 0 <= i < |keywords| && Matches(re, keywords[i], text)
  }

  /** The position of the first pattern of `keywords` that matches `text`, if any. */
  function FirstMatchIndex(re: Regex, keywords: seq<string>, text: string): (r: Option<nat>)
    ensures r.Some? ==> r.value < |keywords| && Matches(re, keywords[r.value], text)
    ensures r.Some? ==> forall j :: 0 <= j < r.value ==> !Matches(re, keywords[j], text)
    ensures r.None? ==> forall j :: 0 <= j < |keywords| ==> !Matches(re, keywords[j], text)
    decreases |keywords|
  {
    if keywords == [] then None
    else if Matches(re, keywords[0], text) then Some(0)
    else
      match FirstMatchIndex(re, keywords[1..], text)
      case None => None
      case Some(i) => Some(i + 1)
  }

  /** The message is suppressed exactly when some stored pattern matches the raw body. */
  lemma SuppressedIffSomeMatch(re: Regex, keywords: seq<string>, text: string)
    ensures FirstMatchIndex(re, keywords, text).Some? <==> AnyMatches(re, keywords, text)
  {
  }

  /** A pattern that does not compile can be dropped from the list without changing the outcome. */
  lemma {:induction false} BadPatternIgnored(re: Regex, before: seq<string>, bad: string, after: seq<string>, text: string)
    requires !re.compiles(bad)
    ensures var r1 := FirstMatchIndex(re, before + [bad] + after, text);
            var r2 := FirstMatchIndex(re, before + after, text);
            r1.Some? == r2.Some?
            && (r1.Some? ==> (before + [bad] + after)[r1.value] == (before + after)[r2.value])
    decreases |before|
  {
    if before == [] {
      assert before + [bad] + after == [bad] + after;
      assert ([bad] + after)[1..] == after;
      assert before + after == after;
    } else {
      BadPatternIgnored(re, before[1..], bad, after, text);
      assert (before + [bad] + after)[1..] == before[1..] + [bad] + after;
      assert (before + after)[1..] == before[1..] + after;
    }
  }

  /** A list of patterns none of which compiles never suppresses, and in particular the empty list. */
  lemma NoCompilingPatternNeverSuppresses(re: Regex, keywords: seq<string>, text: string)
    requires forall i :: 0 <= i < |keywords| ==> !re.compiles(keywords[i])
    ensures FirstMatchIndex(re, keywords, text).None?
  {
  }

  /**
   * Whether a message is suppressed depends only on which patterns are
   * stored, not on the order the table lists them in (the reported
   * pattern may differ).
   */
  lemma SuppressionIgnoresOrder(re: Regex, ks1: seq<string>, ks2: seq<string>, text: string)
    requires forall k :: k in ks1 <==> k in ks2
    ensures FirstMatchIndex(re, ks1, text).Some? == FirstMatchIndex(re, ks2, text).Some?
  {
    if FirstMatchIndex(re, ks1, text).Some? {
      var i := FirstMatchIndex(re, ks1, text).value;
      assert ks1[i] in ks2;
    }
    if FirstMatchIndex(re, ks2, text).Some? {
      var i := FirstMatchIndex(re, ks2, text).value;
      assert ks2[i] in ks1;
    }
  }

  /**
   * The filter loop of the handler: the first pattern that matches sets
   * `shouldFilter` and `matchedKeyword` and stops the loop; when none
   * matches, `matchedKeyword` keeps its zero value "".
   */
  method FirstMatch(re: Regex, keywords: seq<string>, text: string) returns (shouldFilter: bool, matchedKeyword: string)
    ensures shouldFilter == AnyMatches(re, keywords, text)
    ensures match FirstMatchIndex(re, keywords, text)
            case None => !shouldFilter && matchedKeyword == ""
            case Some(i) => shouldFilter && matchedKeyword == keywords[i]
  {
    shouldFilter := false;
    matchedKeyword := "";
    var i := 0;
    while i < |keywords|
      invariant 0 <= i <= |keywords|
      invariant !shouldFilter && matchedKeyword == ""
      invariant forall j :: 0 <= j < i ==> !Matches(re, keywords[j], text)
    {
      if Matches(re, keywords[i], text) {
        shouldFilter := true;
        matchedKeyword := keywords[i];
        break;
      }
      i := i + 1;
    }
  }
}
