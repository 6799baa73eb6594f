/**
 * Text normalisation before translation: `removeEmojis` deletes every
 * symbol rune, and `removeSignature` drops a trailing line that looks like
 * a sign-off.
 */
module Normalize {
  import opened GoStrings
  import opened Unicode

  // ---------------------------------------------------------------------
  // Emoji stripping
  // ---------------------------------------------------------------------

  /** `removeEmojis`: every match of `[\p{So}\p{Sk}]` replaced by nothing. */
  function RemoveEmojis(u: Tables, s: string): (r: string)
    ensures NoSymbols(u, r)
    ensures |r| <= |s|
    ensures NoSymbols(u, s) ==> r == s
    decreases |s|
  {
    if s == [] then []
    else (if IsSymbol(u, s[0]) then [] else [s[0]]) + RemoveEmojis(u, s[1..])
  }

  /** Stripping distributes over concatenation: each rune is judged alone. */
  lemma {:induction false} RemoveEmojisAppend(u: Tables, a: string, b: string)
    ensures RemoveEmojis(u, a + b) == RemoveEmojis(u, a) + RemoveEmojis(u, b)
    decreases |a|
  {
    if a != [] {
      var head := if IsSymbol(u, a[0]) then [] else [a[0]];
      assert (a + b)[0] == a[0] && (a + b)[1..] == a[1..] + b;
      RemoveEmojisAppend(u, a[1..], b);
      calc {
        RemoveEmojis(u, a + b);
        head + RemoveEmojis(u, a[1..] + b);
        head + (RemoveEmojis(u, a[1..]) + RemoveEmojis(u, b));
        (head + RemoveEmojis(u, a[1..])) + RemoveEmojis(u, b);
      }
    } else {
      assert a + b == b;
    }
  }

  /**
   * Stripping keeps every non-symbol rune as often as it occurs and no
   * symbol rune at all.
   */
  lemma {:induction false} RemoveEmojisCounts(u: Tables, s: string, c: char)
    ensures multiset(RemoveEmojis(u, s))[c] == if IsSymbol(u, c) then 0 else multiset(s)[c]
    decreases |s|
  {
    if s != [] {
      RemoveEmojisCounts(u, s[1..], c);
      assert s == [s[0]] + s[1..];
    }
  }

  /** The runes kept appear in their original order: a run of kept runes stays. */
  lemma RemoveEmojisKeepsOrder(u: Tables, a: string, m: string, b: string)
    requires NoSymbols(u, m)
    ensures RemoveEmojis(u, a + m + b) == RemoveEmojis(u, a) + m + RemoveEmojis(u, b)
  {
    RemoveEmojisAppend(u, a + m, b);
    RemoveEmojisAppend(u, a, m);
  }

  lemma RemoveEmojisIdempotent(u: Tables, s: string)
    ensures RemoveEmojis(u, RemoveEmojis(u, s)) == RemoveEmojis(u, s)
  {
  }

  // ---------------------------------------------------------------------
  // Signature heuristics
  // ---------------------------------------------------------------------

  /** RE2's `\s`: ASCII tab, newline, form feed, carriage return and space. */
  predicate IsReSpace(c: char) {
    c == '\t' || c == '\n' || c == '\U{C}' || c == '\r' || c == ' '
  }

  /** The bullet glyphs of the fifth pattern. */
  const Bullets: set<char> := {'•', '✦', '★', '☆', '◆', '◇', '■', '□', '●', '○'}

  const PatternCount := 8

  predicate AllWordChars(u: Tables, s: string) {
    forall i :: 0 <= i < |s| ==> IsWordChar(u, s[i])
  }

  predicate AllSymbols(u: Tables, s: string) {
    forall i :: 0 <= i < |s| ==> IsSymbol(u, s[i])
  }

  /** `:?\s` matches at position `k` of `line`. */
  predicate NameSeparatorAt(line: string, k: nat) {
    (k < |line| && IsReSpace(line[k]))
    || (k + 1 < |line| && line[k] == ':' && IsReSpace(line[k + 1]))
  }

  /** `^c\s` for a leading rune satisfying `first`. */
  predicate LeadsWith(line: string, first: set<char>) {
    |line| >= 2 && line[0] in first && IsReSpace(line[1])
  }

  /**
   * `[\p{L}\p{N}]+:?\s` matches from position `k`: a run of letters and
   * digits starts at `k` and some end of it is followed by `:?\s`.
   */
  predicate WordRunFrom(u: Tables, line: string, k: nat)
    decreases |line| - k
  {
    k < |line| && IsWordChar(u, line[k]) && (NameSeparatorAt(line, k + 1) || WordRunFrom(u, line, k + 1))
  }

  /**
   * `.*\s?[\p{So}\p{Sk}]+$` matches with its symbol run starting at `k`
   * or later: `.*\s?` takes line[..k], which holds no newline except one
   * matched by `\s?` at its end.
   */
  predicate SymbolTailFrom(u: Tables, line: string, k: nat)
    decreases |line| - k
  {
    k < |line|
    && ((AllSymbols(u, line[k..]) && '\n' !in line[..if k == 0 then 0 else k - 1])
        || SymbolTailFrom(u, line, k + 1))
  }

  /**
   * Whether the `p`-th signature pattern matches `line` (unanchored at the
   * end, so a trailing `.*` adds nothing; `.` matches any rune but "\n").
   *   0  `^-\s.*`                 1  `^[—–]\s.*`
   *   2  `^[~\*]\s.*`             3  `^[\p{L}\p{N}]+:?\s.*`
   *   4  `^[•✦★☆◆◇■□●○]\s.*`     5  `^[\p{So}\p{Sk}]+.*`
   *   6  `^.*\s?[\p{So}\p{Sk}]+$` 7  `^.*™$`
   */
  predicate PatternMatches(u: Tables, p: nat, line: string): (b: bool)
    ensures b ==> p < PatternCount && |line| >= 1
    ensures b && (p <= 2 || p == 4) ==> |line| >= 2 && IsReSpace(line[1])
  {
    if p == 0 then LeadsWith(line, {'-'})
    else if p == 1 then LeadsWith(line, {'—', '–'})
    else if p == 2 then LeadsWith(line, {'~', '*'})
    else if p == 3 then WordRunFrom(u, line, 0)
    else if p == 4 then LeadsWith(line, Bullets)
    else if p == 5 then |line| >= 1 && IsSymbol(u, line[0])
    else if p == 6 then SymbolTailFrom(u, line, 0)
    else if p == 7 then |line| >= 1 && line[|line| - 1] == '™' && '\n' !in line[..|line| - 1]
    else false
  }

  lemma {:induction false} WordRunFromExists(u: Tables, line: string, k: nat)
    requires k <= |line|
    ensures WordRunFrom(u, line, k)
            <==> exists j :: k < j <= |line| && AllWordChars(u, line[k..j]) && NameSeparatorAt(line, j)
    decreases |line| - k
  {
    if k < |line| {
      WordRunFromExists(u, line, k + 1);
      if WordRunFrom(u, line, k) {
        if NameSeparatorAt(line, k + 1) {
          assert AllWordChars(u, line[k..k + 1]);
        } else {
          var j :| k + 1 < j <= |line| && AllWordChars(u, line[k + 1..j]) && NameSeparatorAt(line, j);
          forall i | 0 <= i < j - k
            ensures IsWordChar(u, line[k..j][i])
          {
            if i > 0 {
              assert line[k..j][i] == line[k + 1..j][i - 1];
            }
          }
        }
      }
      if exists j :: k < j <= |line| && AllWordChars(u, line[k..j]) && NameSeparatorAt(line, j) {
        var j :| k < j <= |line| && AllWordChars(u, line[k..j]) && NameSeparatorAt(line, j);
        assert line[k..j][0] == line[k];
        if j > k + 1 {
          assert line[k + 1..j] == line[k..j][1..];
        }
      }
    }
  }

  /** The fourth pattern as a regular expression: some leading run of letters and digits, then `:?\s`. */
  lemma NamePatternRule(u: Tables, line: string)
    ensures PatternMatches(u, 3, line)
            <==> exists k :: 1 <= k <= |line| && AllWordChars(u, line[..k]) && NameSeparatorAt(line, k)
  {
    WordRunFromExists(u, line, 0);
    assert forall k | 0 <= k <= |line| :: line[0..k] == line[..k];
  }

  lemma {:induction false} SymbolTailFromExists(u: Tables, line: string, k: nat)
    requires k <= |line|
    ensures SymbolTailFrom(u, line, k)
            <==> exists j :: k <= j < |line| && AllSymbols(u, line[j..])
                             && '\n' !in line[..if j == 0 then 0 else j - 1]
    decreases |line| - k
  {
    if k < |line| {
      SymbolTailFromExists(u, line, k + 1);
    }
  }

  /**
   * The seventh pattern as a regular expression: the line ends in a run of
   * symbol runes, and what precedes the run holds no newline except one
   * directly before it.
   */
  lemma TrailingSymbolsRule(u: Tables, line: string)
    ensures PatternMatches(u, 6, line)
            <==> exists k :: 0 <= k < |line| && AllSymbols(u, line[k..])
                             && '\n' !in line[..if k == 0 then 0 else k - 1]
  {
    SymbolTailFromExists(u, line, 0);
  }

  /** How many runes of `s` are not letters. */
  function NonLetterCount(u: Tables, s: string): (n: nat)
    ensures n <= |s|
  {
    if s == [] then 0
    else NonLetterCount(u, s[..|s| - 1]) + (if u.letter(s[|s| - 1]) then 0 else 1)
  }

  /**
   * The fallback `float64(nonLetters) / float64(len(line)) > 0.5`, where
   * `len` counts bytes, as an integer comparison. For an empty line the
   * quotient is NaN and the comparison false, as here.
   */
  predicate MostlyNonLetters(u: Tables, line: string) {
    2 * NonLetterCount(u, line) > Utf8Length(line)
  }

  /**
   * Because the fallback divides a count of runes by a count of bytes, a
   * line written wholly outside ASCII (Hebrew, Arabic or Cyrillic letters,
   * say, with no ASCII digit, space or punctuation) never passes it, even
   * when none of its runes is a letter.
   */
  lemma WideLineNeverMostlyNonLetters(u: Tables, line: string)
    requires forall i :: 0 <= i < |line| ==> line[i] as int >= 0x80
    ensures !MostlyNonLetters(u, line)
  {
    WideRunesUtf8Length(line);
  }

  /** Some pattern numbered `p` or higher matches `line`. */
  predicate SomePatternFrom(u: Tables, line: string, p: nat)
    decreases PatternCount - p
  {
    p < PatternCount && (PatternMatches(u, p, line) || SomePatternFrom(u, line, p + 1))
  }

  /** The decision rule for the (trimmed) last line. */
  predicate IsSignature(u: Tables, line: string) {
    SomePatternFrom(u, line, 0) || MostlyNonLetters(u, line)
  }

  /** `SomePatternFrom(u, line, p)` is "one of the patterns p..7 matches". */
  lemma {:induction false} SomePatternFromExists(u: Tables, line: string, p: nat)
    requires p <= PatternCount
    ensures SomePatternFrom(u, line, p) <==> exists q :: p <= q < PatternCount && PatternMatches(u, q, line)
    decreases PatternCount - p
  {
    if p < PatternCount {
      SomePatternFromExists(u, line, p + 1);
    }
  }

  /**
   * The rule as stated: the line is a signature when any of the eight
   * patterns matches it, or else when more than half of its bytes' worth
   * are non-letter runes.
   */
  lemma IsSignatureRule(u: Tables, line: string)
    ensures IsSignature(u, line)
            <==> (exists p :: 0 <= p < PatternCount && PatternMatches(u, p, line))
                 || MostlyNonLetters(u, line)
  {
    SomePatternFromExists(u, line, 0);
  }

  /**
   * The decision `removeSignature` takes on its last line: the eight
   * patterns in order, stopping at the first that matches, then the count
   * of non-letter runes.
   */
  method IsSignatureLine(u: Tables, line: string) returns (isSignature: bool)
    ensures isSignature == IsSignature(u, line)
  {
    isSignature := false;
    var p := 0;
    while p < PatternCount
      invariant 0 <= p <= PatternCount
      invariant SomePatternFrom(u, line, 0) == SomePatternFrom(u, line, p)
    {
      if PatternMatches(u, p, line) {
        isSignature := true;
        break;
      }
      p := p + 1;
    }
    if !isSignature {
      var nonLetterCount := 0;
      var k := 0;
      while k < |line|
        invariant 0 <= k <= |line|
        invariant nonLetterCount == NonLetterCount(u, line[..k])
      {
        assert line[..k + 1][..k] == line[..k];
        if !u.letter(line[k]) {
          nonLetterCount := nonLetterCount + 1;
        }
        k := k + 1;
      }
      assert line[..k] == line;
      if 2 * nonLetterCount > Utf8Length(line) {
        isSignature := true;
      }
    }
  }

  /** On a newline-free line, the seventh pattern is "the last rune is a symbol". */
  lemma TrailingSymbolPattern(u: Tables, line: string)
    requires '\n' !in line
    ensures PatternMatches(u, 6, line) <==> |line| >= 1 && IsSymbol(u, line[|line| - 1])
  {
    TrailingSymbolsRule(u, line);
    if |line| >= 1 && IsSymbol(u, line[|line| - 1]) {
      var k := |line| - 1;
      assert AllSymbols(u, line[k..]);
      assert '\n' !in line[..if k == 0 then 0 else k - 1];
    }
    if PatternMatches(u, 6, line) {
      var k :| 0 <= k < |line| && AllSymbols(u, line[k..]) && '\n' !in line[..if k == 0 then 0 else k - 1];
      assert line[k..][|line| - 1 - k] == line[|line| - 1];
    }
  }

  /**
   * Patterns 6 to 8 look for symbol runes; on a line with none of them,
   * and with tables that class `™` as a symbol (as Unicode does), they
   * never match.
   */
  lemma SymbolPatternsNeedSymbols(u: Tables, line: string)
    requires NoSymbols(u, line) && IsSymbol(u, '™')
    ensures !PatternMatches(u, 5, line) && !PatternMatches(u, 6, line) && !PatternMatches(u, 7, line)
  {
    TrailingSymbolsRule(u, line);
    forall k | 0 <= k < |line|
      ensures !AllSymbols(u, line[k..])
    {
      assert line[k..][0] == line[k];
    }
  }

  // ---------------------------------------------------------------------
  // Signature stripping
  // ---------------------------------------------------------------------

  /**
   * The decision on the lines of the trimmed text: a single line leaves
   * the text as it was; otherwise a signature last line is dropped and the
   * rest joined and trimmed.
   */
  function StripLastLine(u: Tables, text: string, lines: seq<string>): string
    requires |lines| >= 1
  {
    if |lines| <= 1 then text
    else if IsSignature(u, TrimSpace(lines[|lines| - 1])) then TrimSpace(Join(lines[..|lines| - 1]))
    else text
  }

  /** What `removeSignature` computes. */
  function StripSignature(u: Tables, text: string): (r: string)
    ensures r == text || |r| < |text|
  {
    var lines := Split(TrimSpace(text));
    if |lines| >= 2 then
      DroppedLineShortens(text);
      StripLastLine(u, text, lines)
    else StripLastLine(u, text, lines)
  }

  /** `removeSignature`. */
  method RemoveSignature(u: Tables, text: string) returns (r: string)
    ensures r == StripSignature(u, text)
  {
    var lines := Split(TrimSpace(text));
    if |lines| <= 1 {
      return text;
    }
    var lastLine := TrimSpace(lines[|lines| - 1]);
    var isSignature := IsSignatureLine(u, lastLine);
    if isSignature {
      return TrimSpace(Join(lines[..|lines| - 1]));
    }
    return text;
  }

  /** A text whose trimmed form is a single line comes back exactly, untrimmed. */
  lemma SingleLineUnchanged(u: Tables, text: string)
    requires '\n' !in TrimSpace(text)
    ensures StripSignature(u, text) == text
  {
    SplitSingle(TrimSpace(text));
  }

  /**
   * The closed form: with `t` the trimmed text and `i` the position of its
   * last newline, the result is the trimmed part before `i` when the
   * trimmed part after `i` is a signature, and the text unchanged otherwise.
   */
  lemma StripSignatureAtLastNewline(u: Tables, text: string, i: nat)
    requires LastNewlineAt(TrimSpace(text), i)
    ensures var t := TrimSpace(text);
            StripSignature(u, text)
            == if IsSignature(u, TrimSpace(t[i + 1..])) then TrimSpace(t[..i]) else text
  {
    var t := TrimSpace(text);
    SplitAtLastNewline(t, i);
    StripLastLineOf(u, text, Split(t), t[..i], t[i + 1..]);
  }

  /** `StripLastLine` on lines whose last is `last` and whose others join to `init`. */
  lemma StripLastLineOf(u: Tables, text: string, lines: seq<string>, init: string, last: string)
    requires |lines| >= 2 && lines[|lines| - 1] == last && Join(lines[..|lines| - 1]) == init
    ensures StripLastLine(u, text, lines) == if IsSignature(u, TrimSpace(last)) then TrimSpace(init) else text
  {
  }

  /** Dropping the last line of a multi-line text leaves something strictly shorter. */
  lemma DroppedLineShortens(text: string)
    requires |Split(TrimSpace(text))| >= 2
    ensures var lines := Split(TrimSpace(text));
            |TrimSpace(Join(lines[..|lines| - 1]))| < |text|
  {
    SplitInitShorter(TrimSpace(text));
  }


  /**
   * Only two results are possible, and which one is decided by the rule:
   * the text is changed exactly when its trimmed form has two or more lines
   * and the trimmed last line is a signature, and then the result is the
   * trimmed join of the other lines, strictly shorter than the text.
   */
  lemma StripSignatureShape(u: Tables, text: string)
    ensures var lines := Split(TrimSpace(text));
            var r := StripSignature(u, text);
            && (r == text || r == TrimSpace(Join(lines[..|lines| - 1])))
            && (r != text <==> |lines| >= 2 && IsSignature(u, TrimSpace(lines[|lines| - 1])))
            && (r != text ==> |r| < |text|)
  {
    var lines := Split(TrimSpace(text));
    assert StripSignature(u, text) == StripLastLine(u, text, lines);
    if |lines| >= 2 {
      DroppedLineShortens(text);
    }
  }

  // ---------------------------------------------------------------------
  // The normaliser as the pipeline applies it
  // ---------------------------------------------------------------------

  /** The text handed to translation: first symbols, then a signature, removed. */
  function Normalized(u: Tables, body: string): (r: string)
    ensures |r| <= |body|
  {
    StripSignature(u, RemoveEmojis(u, body))
  }

  /** A single-line text without symbol runes is translated as it is. */
  lemma NormalizedKeepsPlainLine(u: Tables, body: string)
    requires NoSymbols(u, body) && '\n' !in body
    ensures Normalized(u, body) == body
  {
    var i := TrimSpaceCutsSpace(body);
    assert '\n' !in TrimSpace(body) by {
      forall j | 0 <= j < |TrimSpace(body)|
        ensures TrimSpace(body)[j] != '\n'
      {
        assert TrimSpace(body)[j] == body[i + j];
      }
    }
    SingleLineUnchanged(u, body);
  }

  /**
   * A trimmed text whose last line is a trimmed signature loses that line
   * and the newline before it.
   */
  lemma StripTrailingSignature(u: Tables, head: string, last: string)
    requires Trimmed(head + "\n" + last) && Trimmed(last)
    requires '\n' !in last && IsSignature(u, last)
    ensures StripSignature(u, head + "\n" + last) == TrimSpace(head)
  {
    var text := head + "\n" + last;
    assert text[|head|] == '\n';
    assert text[|head| + 1..] == last && text[..|head|] == head;
    forall j | |head| < j < |text|
      ensures text[j] != '\n'
    {
      assert text[j] == last[j - |head| - 1];
    }
    StripSignatureAtLastNewline(u, text, |head|);
  }

  /**
   * Normalisation is not idempotent: when the last two lines both look like
   * signatures, a second pass strips the second one too.
   */
  lemma NormalizedNotIdempotent(u: Tables, head: string, x: string, y: string)
    requires head != [] && y != [] && Trimmed(head) && Trimmed(x) && Trimmed(y)
    requires '\n' !in x && '\n' !in y
    requires NoSymbols(u, head + "\n" + x + "\n" + y)
    requires IsSignature(u, x) && IsSignature(u, y)
    ensures Normalized(u, head + "\n" + x + "\n" + y) == head + "\n" + x
    ensures Normalized(u, head + "\n" + x) == head
  {
    var t := head + "\n" + x;
    var s := t + "\n" + y;
    assert NoSymbols(u, t) by {
      forall j | 0 <= j < |t| ensures !IsSymbol(u, t[j]) {
        assert t[j] == s[j];
      }
    }
    assert Trimmed(t) by { assert t[0] == head[0]; }
    assert Trimmed(s) by { assert s[0] == head[0] && s[|s| - 1] == y[|y| - 1]; }
    StripTrailingSignature(u, t, y);
    StripTrailingSignature(u, head, x);
  }

  /** The smallest instance: "a\n- b\n- c" normalises to "a\n- b", and that to "a". */
  lemma NormalizedNotIdempotentExample(u: Tables)
    requires NoSymbols(u, "a\n- b\n- c")
    ensures Normalized(u, "a\n- b\n- c") == "a\n- b"
    ensures Normalized(u, "a\n- b") == "a"
  {
    var head, x, y := "a", "- b", "- c";
    assert head + "\n" + x + "\n" + y == "a\n- b\n- c";
    assert head + "\n" + x == "a\n- b";
    assert Trimmed(head) && Trimmed(x) && Trimmed(y) by {
      assert !IsSpace('a') && !IsSpace('-') && !IsSpace('b') && !IsSpace('c');
    }
    assert '\n' !in x && '\n' !in y;
    assert IsSignature(u, x) by {
      assert PatternMatches(u, 0, x);
    }
    assert IsSignature(u, y) by {
      assert PatternMatches(u, 0, y);
    }
    NormalizedNotIdempotent(u, head, x, y);
  }

  /**
   * The fourth pattern takes any line that opens with a word and a space:
   * an ordinary closing sentence counts as a signature.
   */
  lemma WordThenSpaceIsSignature(u: Tables, w: string, rest: string)
    requires w != [] && AllWordChars(u, w)
    ensures IsSignature(u, w + " " + rest)
  {
    var line := w + " " + rest;
    assert line[..|w|] == w;
    assert NameSeparatorAt(line, |w|);
    NamePatternRule(u, line);
    assert PatternMatches(u, 3, line);
  }

  /** So "Hi\nSee you" is translated as "Hi": the closing sentence is dropped. */
  lemma NormalizedDropsClosingSentence(u: Tables)
    requires NoSymbols(u, "Hi\nSee you")
    requires u.letter('S') && u.letter('e')
    ensures Normalized(u, "Hi\nSee you") == "Hi"
  {
    var head, last := "Hi", "See you";
    assert head + "\n" + last == "Hi\nSee you";
    assert Trimmed(head + "\n" + last) && Trimmed(last) && Trimmed(head) by {
      assert !IsSpace('H') && !IsSpace('u') && !IsSpace('S') && !IsSpace('i');
    }
    assert "See" + " " + "you" == last;
    WordThenSpaceIsSignature(u, "See", "you");
    StripTrailingSignature(u, head, last);
  }
}
