/** escapeLike of internal/store/store.go, and what the escaped text means as an SQL LIKE pattern with ESCAPE '\'. */
module LikeEscape {
  import opened Bytes

  // ---- The code ----

  /** strings.ReplaceAll for a one-character pattern. */
  function ReplaceAll(s: string, c: char, put: string): string {
    if s == "" then "" else (if s[0] == c then put else [s[0]]) + ReplaceAll(s[1..], c, put)
  }

  /** Three passes, in this order: the escape character itself first. */
  function EscapeLike(s: string): string {
    ReplaceAll(ReplaceAll(ReplaceAll(s, '\\', "\\\\"), '%', "\\%"), '_', "\\_")
  }

  // ---- One pass per character ----

  function EscapeChar(c: char): string {
    if c == '\\' || c == '%' || c == '_' then ['\\', c] else [c]
  }

  function EscapeEach(s: string): string {
    if s == "" then "" else EscapeChar(s[0]) + EscapeEach(s[1..])
  }

  lemma {:induction false} ReplaceAppend(a: string, b: string, c: char, put: string)
    ensures ReplaceAll(a + b, c, put) == ReplaceAll(a, c, put) + ReplaceAll(b, c, put)
    decreases |a|
  {
    if a == "" {
      assert a + b == b;
    } else {
      ReplaceAppend(a[1..], b, c, put);
      var first := if a[0] == c then put else [a[0]];
      assert (a + b)[1..] == a[1..] + b;
      Associate(first, ReplaceAll(a[1..], c, put), ReplaceAll(b, c, put));
    }
  }

  lemma Associate(a: string, b: string, c: string)
    ensures a + (b + c) == a + b + c
  {
  }

  lemma EscapeOne(c: char)
    ensures EscapeLike([c]) == EscapeChar(c)
  {
    ReplaceOne(c, '\\', "\\\\");
    ReplaceOne(c, '%', "\\%");
    ReplaceOne(c, '_', "\\_");
    if c == '\\' {
      ReplaceTwo('\\', '\\', '%', "\\%");
      ReplaceTwo('\\', '\\', '_', "\\_");
    } else if c == '%' {
      ReplaceTwo('\\', '%', '_', "\\_");
    }
  }

  lemma ReplaceOne(x: char, c: char, put: string)
    ensures ReplaceAll([x], c, put) == if x == c then put else [x]
  {
    assert [x][1..] == "";
  }

  lemma ReplaceTwo(x: char, y: char, c: char, put: string)
    requires x != c && y != c
    ensures ReplaceAll([x, y], c, put) == [x, y]
  {
    ReplaceOne(x, c, put);
    ReplaceOne(y, c, put);
    ReplaceAppend([x], [y], c, put);
    assert [x, y] == [x] + [y];
  }

  /** The three passes escape each character once: no escape that one pass writes is escaped again by the next. */
  lemma {:induction false} EscapeIsEach(s: string)
    ensures EscapeLike(s) == EscapeEach(s)
  {
    if s == "" {
    } else {
      EscapeIsEach(s[1..]);
      EscapeOne(s[0]);
      assert s == [s[0]] + s[1..];
      var a1, b1 := ReplaceAll([s[0]], '\\', "\\\\"), ReplaceAll(s[1..], '\\', "\\\\");
      var a2, b2 := ReplaceAll(a1, '%', "\\%"), ReplaceAll(b1, '%', "\\%");
      ReplaceAppend([s[0]], s[1..], '\\', "\\\\");
      ReplaceAppend(a1, b1, '%', "\\%");
      ReplaceAppend(a2, b2, '_', "\\_");
    }
  }

  // ---- LIKE ----

  /** LIKE compares ASCII letters without case. */
  predicate Same(a: char, b: char) {
    LowerChar(a) == LowerChar(b)
  }

  lemma SameIff(a: char, b: char)
    ensures Same(a, b) <==>
      a == b || ('A' <= a <= 'Z' && b as int == a as int + 32) || ('A' <= b <= 'Z' && a as int == b as int + 32)
  {
  }

  predicate Like(pattern: string, text: string)
    decreases |pattern| + |text|
  {
    if pattern == "" then text == ""
    else if pattern[0] == '\\' then
      |pattern| > 1 && text != "" && Same(pattern[1], text[0]) && Like(pattern[2..], text[1..])
    else if pattern[0] == '%' then
      Like(pattern[1..], text) || (text != "" && Like(pattern, text[1..]))
    else
      text != "" && (pattern[0] == '_' || Same(pattern[0], text[0])) && Like(pattern[1..], text[1..])
  }

  predicate StartsWith(text: string, s: string) {
    |s| <= |text| && forall k :: 0 <= k < |s| ==> Same(s[k], text[k])
  }

  /** Escaped text in front of a pattern stands for itself, character by character. */
  lemma {:induction false} EscapedIsLiteral(s: string, rest: string, text: string)
    ensures Like(EscapeLike(s) + rest, text) <==> StartsWith(text, s) && Like(rest, text[|s|..])
    decreases |s|
  {
    EscapeIsEach(s);
    if s == "" {
      assert EscapeEach(s) + rest == rest && text[0..] == text;
    } else {
      EscapeIsEach(s[1..]);
      var pattern := EscapeEach(s) + rest;
      var later := EscapeEach(s[1..]) + rest;
      assert pattern == EscapeChar(s[0]) + later;
      assert pattern[|EscapeChar(s[0])|..] == later;
      if text != "" {
        EscapedIsLiteral(s[1..], rest, text[1..]);
        assert |s| <= |text| ==> text[1..][|s[1..]|..] == text[|s|..];
        assert StartsWith(text, s) <==> Same(s[0], text[0]) && StartsWith(text[1..], s[1..]) by {
          StartsWithTail(text, s);
        }
      }
    }
  }

  lemma StartsWithTail(text: string, s: string)
    requires text != "" && s != ""
    ensures StartsWith(text, s) <==> Same(s[0], text[0]) && StartsWith(text[1..], s[1..])
  {
    if Same(s[0], text[0]) && StartsWith(text[1..], s[1..]) {
      forall k | 0 <= k < |s|
        ensures Same(s[k], text[k])
      {
        if k > 0 {
          assert s[1..][k - 1] == s[k] && text[1..][k - 1] == text[k];
        }
      }
    }
  }

  lemma {:induction false} AnythingMatches(text: string)
    ensures Like("%", text)
    decreases |text|
  {
    if text == "" {
    } else {
      AnythingMatches(text[1..]);
    }
    assert "%"[1..] == "";
  }

  /** A leading percent sign skips any number of characters. */
  lemma {:induction false} PercentSkips(pattern: string, text: string)
    ensures Like("%" + pattern, text) <==> exists i :: 0 <= i <= |text| && Like(pattern, text[i..])
    decreases |text|
  {
    assert ("%" + pattern)[1..] == pattern;
    assert text[0..] == text;
    if text == "" {
    } else {
      PercentSkips(pattern, text[1..]);
      if i :| 0 <= i <= |text[1..]| && Like(pattern, text[1..][i..]) {
        assert text[1..][i..] == text[i + 1..];
      }
      if i :| 0 < i <= |text| && Like(pattern, text[i..]) {
        assert text[1..][i - 1..] == text[i..];
      }
    }
  }

  /** Searching with the escaped text between percent signs finds exactly the texts in which it occurs. */
  lemma SearchFindsOccurrences(s: string, text: string)
    ensures Like("%" + EscapeLike(s) + "%", text) <==> exists i :: 0 <= i <= |text| && StartsWith(text[i..], s)
  {
    hide Like, EscapeLike;
    assert "%" + EscapeLike(s) + "%" == "%" + (EscapeLike(s) + "%");
    PercentSkips(EscapeLike(s) + "%", text);
    forall i | 0 <= i <= |text|
      ensures Like(EscapeLike(s) + "%", text[i..]) <==> StartsWith(text[i..], s)
    {
      EscapedIsLiteral(s, "%", text[i..]);
      if StartsWith(text[i..], s) {
        AnythingMatches(text[i..][|s|..]);
      }
    }
  }
}
