/**
 * The few functions of Go's `strings` package the bot relies on, over
 * strings seen as sequences of runes (code points): `TrimSpace`, `Split`
 * and `Join` with the separator "\n", `HasPrefix`, and the byte length
 * `len(s)` of the UTF-8 encoding.
 */
module GoStrings {

  /**
   * `unicode.IsSpace`: tab, newline, vertical tab, form feed, carriage
   * return, space, U+0085 and U+00A0, and beyond Latin-1 the runes with the
   * White_Space property: U+1680, U+2000 to U+200A, U+2028, U+2029,
   * U+202F, U+205F and U+3000.
   */
  predicate IsSpace(c: char) {
    var n := c as int;
    (0x09 <= n <= 0x0D) || n == 0x20 || n == 0x85 || n == 0xA0 || n == 0x1680
    || (0x2000 <= n <= 0x200A) || n == 0x2028 || n == 0x2029 || n == 0x202F
    || n == 0x205F || n == 0x3000
  }

  predicate AllSpace(s: string) {
    forall i :: 0 <= i < |s| ==> IsSpace(s[i])
  }

  /** Neither end of `s` is white space (an empty string qualifies). */
  predicate Trimmed(s: string) {
    s == [] || (!IsSpace(s[0]) && !IsSpace(s[|s| - 1]))
  }

  /**
   * `strings.TrimSpace`: `s` with its leading and trailing white space cut
   * off; a string whose ends are not white space is returned unchanged.
   */
  function TrimSpace(s: string): (r: string)
    ensures |r| <= |s|
    ensures Trimmed(r)
    ensures Trimmed(s) ==> r == s
    decreases |s|
  {
    if s == [] then s
    else if IsSpace(s[0]) then TrimSpace(s[1..])
    else if IsSpace(s[|s| - 1]) then TrimSpace(s[..|s| - 1])
    else s
  }

  /**
   * What `TrimSpace` cuts off is white space, at the two ends only: the
   * result is the slice of `s` that starts at the returned position.
   */
  lemma {:induction false} TrimSpaceCutsSpace(s: string) returns (i: nat)
    ensures i + |TrimSpace(s)| <= |s| && TrimSpace(s) == s[i..i + |TrimSpace(s)|]
    ensures AllSpace(s[..i]) && AllSpace(s[i + |TrimSpace(s)|..])
    decreases |s|, 1
  {
    if s == [] {
      i := 0;
    } else if IsSpace(s[0]) {
      i := CutsLeadingSpace(s);
    } else if IsSpace(s[|s| - 1]) {
      i := CutsTrailingSpace(s);
    } else {
      i := 0;
      assert TrimSpace(s) == s;
    }
  }

  lemma {:induction false} CutsLeadingSpace(s: string) returns (i: nat)
    requires s != [] && IsSpace(s[0])
    ensures i + |TrimSpace(s)| <= |s| && TrimSpace(s) == s[i..i + |TrimSpace(s)|]
    ensures AllSpace(s[..i]) && AllSpace(s[i + |TrimSpace(s)|..])
    decreases |s|, 0
  {
    var t := s[1..];
    var r := TrimSpace(t);
    assert TrimSpace(s) == r;
    var j := TrimSpaceCutsSpace(t);
    i := j + 1;
    assert r == s[i..i + |r|];
    assert s[i + |r|..] == t[j + |r|..];
    assert s[..i] == [s[0]] + t[..j];
  }

  lemma {:induction false} CutsTrailingSpace(s: string) returns (i: nat)
    requires s != [] && !IsSpace(s[0]) && IsSpace(s[|s| - 1])
    ensures i + |TrimSpace(s)| <= |s| && TrimSpace(s) == s[i..i + |TrimSpace(s)|]
    ensures AllSpace(s[..i]) && AllSpace(s[i + |TrimSpace(s)|..])
    decreases |s|, 0
  {
    var t := s[..|s| - 1];
    var r := TrimSpace(t);
    assert TrimSpace(s) == r;
    i := TrimSpaceCutsSpace(t);
    assert r == s[i..i + |r|];
    assert s[..i] == t[..i];
    assert s[i + |r|..] == t[i + |r|..] + [s[|s| - 1]];
  }

  /** `strings.Join(lines, "\n")`. */
  function Join(lines: seq<string>): (r: string)
    ensures |r| + 1 >= |lines|
    ensures |lines| >= 1 ==> |r| >= |lines[0]|
  {
    if |lines| == 0 then ""
    else if |lines| == 1 then lines[0]
    else lines[0] + "\n" + Join(lines[1..])
  }

  predicate NoNewlines(lines: seq<string>) {
    forall i :: 0 <= i < |lines| ==> '\n' !in lines[i]
  }

  /**
   * `strings.Split(s, "\n")`: the pieces between newlines, always at least
   * one. A leading rune that is not a newline joins the first piece of the
   * rest; a newline starts a new piece.
   */
  function Split(s: string): (lines: seq<string>)
    ensures |lines| >= 1
    decreases |s|
  {
    if s == [] then [""]
    else
      var rest := Split(s[1..]);
      if s[0] == '\n' then [""] + rest else [[s[0]] + rest[0]] + rest[1..]
  }

  /** A string splits into a single piece exactly when it holds no newline, and that piece is the string. */
  lemma {:induction false} SplitSingle(s: string)
    ensures |Split(s)| == 1 <==> '\n' !in s
    ensures '\n' !in s ==> Split(s) == [s]
    decreases |s|
  {
    if s != [] {
      SplitSingle(s[1..]);
      assert s == [s[0]] + s[1..];
    }
  }

  /** No piece of a split holds a newline. */
  lemma {:induction false} SplitHasNoNewlines(s: string)
    ensures NoNewlines(Split(s))
    decreases |s|
  {
    if s != [] {
      SplitHasNoNewlines(s[1..]);
      var rest := Split(s[1..]);
      if s[0] != '\n' {
        assert '\n' !in rest[0];
        assert '\n' !in [s[0]] + rest[0];
        forall i | 1 <= i < |Split(s)|
          ensures '\n' !in Split(s)[i]
        {
          assert Split(s)[i] == rest[i];
        }
      } else {
        forall i | 1 <= i < |Split(s)|
          ensures '\n' !in Split(s)[i]
        {
          assert Split(s)[i] == rest[i - 1];
        }
      }
    }
  }

  /** Prepending a rune to the first piece prepends it to the join. */
  lemma JoinConsFirst(c: char, first: string, more: seq<string>)
    ensures Join([[c] + first] + more) == [c] + Join([first] + more)
  {
    if more != [] {
      var rest := Join(more);
      assert ([[c] + first] + more)[1..] == more;
      assert ([first] + more)[1..] == more;
      assert ([c] + first) + "\n" + rest == [c] + (first + "\n" + rest);
    }
  }

  /** Joining the pieces of `s` with newlines gives back `s`. */
  lemma {:induction false} SplitJoin(s: string)
    ensures Join(Split(s)) == s
    decreases |s|
  {
    if s != [] {
      var rest := Split(s[1..]);
      SplitJoin(s[1..]);
      if s[0] == '\n' {
        assert ([""] + rest)[1..] == rest;
      } else {
        JoinConsFirst(s[0], rest[0], rest[1..]);
        assert rest == [rest[0]] + rest[1..];
      }
      assert s == [s[0]] + s[1..];
    }
  }

  /** Splitting `a + "\n" + b` with `b` newline-free: the pieces of `a`, then `b`. */
  lemma {:induction false} SplitSnoc(a: string, b: string)
    requires '\n' !in b
    ensures Split(a + "\n" + b) == Split(a) + [b]
    decreases |a|
  {
    var s := a + "\n" + b;
    if a == [] {
      assert s == "\n" + b && s[1..] == b;
      SplitSingle(b);
    } else {
      SplitSnoc(a[1..], b);
      assert s[0] == a[0] && s[1..] == a[1..] + "\n" + b;
    }
  }

  /** Splitting `a + "\n" + t` with `a` newline-free: `a`, then the pieces of `t`. */
  lemma {:induction false} SplitCons(a: string, t: string)
    requires '\n' !in a
    ensures Split(a + "\n" + t) == [a] + Split(t)
    decreases |a|
  {
    var s := a + "\n" + t;
    if a == [] {
      assert s == "\n" + t && s[1..] == t;
    } else {
      SplitCons(a[1..], t);
      assert s[0] == a[0] && s[1..] == a[1..] + "\n" + t;
      assert a == [a[0]] + a[1..];
    }
  }

  /** Splitting the join of newline-free pieces gives back the pieces. */
  lemma {:induction false} JoinSplit(lines: seq<string>)
    requires |lines| >= 1 && NoNewlines(lines)
    ensures Split(Join(lines)) == lines
    decreases |lines|
  {
    assert '\n' !in lines[0];
    if |lines| == 1 {
      SplitSingle(lines[0]);
    } else {
      var tail := lines[1..];
      assert NoNewlines(tail) by {
        forall i | 0 <= i < |tail|
          ensures '\n' !in tail[i]
        {
          assert tail[i] == lines[i + 1];
        }
      }
      JoinSplit(tail);
      SplitCons(lines[0], Join(tail));
      assert lines == [lines[0]] + tail;
    }
  }

  /** Position `i` holds the last newline of `s`. */
  predicate LastNewlineAt(s: string, i: nat) {
    i < |s| && s[i] == '\n' && forall j :: i < j < |s| ==> s[j] != '\n'
  }

  /** A string with a newline has a last one. */
  lemma {:induction false} LastNewlineExists(s: string) returns (i: nat)
    requires '\n' in s
    ensures LastNewlineAt(s, i)
    decreases |s|
  {
    if s[|s| - 1] == '\n' {
      i := |s| - 1;
    } else {
      var init := s[..|s| - 1];
      assert '\n' in init by {
        var k :| 0 <= k < |s| && s[k] == '\n';
        assert init[k] == '\n';
      }
      i := LastNewlineExists(init);
      forall j | i < j < |s|
        ensures s[j] != '\n'
      {
        if j < |s| - 1 {
          assert s[j] == init[j];
        }
      }
    }
  }

  /**
   * Splitting a string at its last newline: the last piece is what
   * follows it, and the other pieces join to what precedes it.
   */
  lemma SplitAtLastNewline(s: string, i: nat)
    requires LastNewlineAt(s, i)
    ensures var lines := Split(s);
            |lines| >= 2 && lines[|lines| - 1] == s[i + 1..]
            && Join(lines[..|lines| - 1]) == s[..i]
  {
    var a, b := s[..i], s[i + 1..];
    assert '\n' !in b by {
      forall k | 0 <= k < |b|
        ensures b[k] != '\n'
      {
        assert b[k] == s[i + 1 + k];
      }
    }
    assert s == a + "\n" + b;
    SplitSnoc(a, b);
    SplitJoin(a);
    var lines := Split(s);
    assert lines[..|lines| - 1] == Split(a);
  }

  /** A string that splits into two or more pieces has a newline, and dropping the last piece shortens it. */
  lemma SplitInitShorter(s: string)
    requires |Split(s)| >= 2
    ensures var lines := Split(s);
            |Join(lines[..|lines| - 1])| < |s|
  {
    SplitSingle(s);
    var i := LastNewlineExists(s);
    SplitAtLastNewline(s, i);
  }

  predicate HasPrefix(s: string, prefix: string) {
    |prefix| <= |s| && s[..|prefix|] == prefix
  }

  /** Bytes in the UTF-8 encoding of one rune. */
  function RuneLen(c: char): (n: nat)
    ensures 1 <= n <= 4
  {
    var v := c as int;
    if v < 0x80 then 1 else if v < 0x800 then 2 else if v < 0x1_0000 then 3 else 4
  }

  /** Go's `len(s)` on a string: the length of its UTF-8 encoding in bytes. */
  function Utf8Length(s: string): (n: nat)
    ensures |s| <= n <= 4 * |s|
  {
    if s == [] then 0 else Utf8Length(s[..|s| - 1]) + RuneLen(s[|s| - 1])
  }

  /** A string of runes outside ASCII takes at least two bytes a rune. */
  lemma {:induction false} WideRunesUtf8Length(s: string)
    requires forall i :: 0 <= i < |s| ==> s[i] as int >= 0x80
    ensures Utf8Length(s) >= 2 * |s|
    decreases |s|
  {
    if s != [] {
      var init := s[..|s| - 1];
      forall i | 0 <= i < |init|
        ensures init[i] as int >= 0x80
      {
        assert init[i] == s[i];
      }
      WideRunesUtf8Length(init);
    }
  }
}
