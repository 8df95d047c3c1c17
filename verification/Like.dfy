/**
 The search patterns of the message store (apps/daemon/store/store.go): escapeLike against a
 backtracking LIKE matcher with escape character '\'. The matcher follows section 8.5, like
 predicate, of ISO/IEC 9075-2, with the ASCII case folding SQLite adds.
 */
module Like {

  function Fold(c: char): (r: char) {
    if 'A' <= c <= 'Z' then (c as int - 'A' as int + 'a' as int) as char else c
  }

  /** Two characters fold alike when they are the same, or one letter of the alphabet in both cases. */
  lemma FoldMeans(a: char, b: char)
    ensures Fold(a) == Fold(b) <==>
              || a == b
              || ('A' <= a <= 'Z' && b as int == a as int + 32)
              || ('A' <= b <= 'Z' && a as int == b as int + 32)
  {
  }

  predicate SameText(a: string, b: string) {
    |a| == |b| && forall i :: 0 <= i < |a| ==> Fold(a[i]) == Fold(b[i])
  }

  predicate Special(c: char) {
    c == '%' || c == '_' || c == '\\'
  }

  /** Does the whole of s match the pattern? An escape at the very end matches nothing. */
  predicate Matches(pattern: string, s: string)
    decreases |pattern|, |s|
  {
    if pattern == "" then s == ""
    else if pattern[0] == '%' then
      Matches(pattern[1..], s) || (s != "" && Matches(pattern, s[1..]))
    else if pattern[0] == '_' then
      s != "" && Matches(pattern[1..], s[1..])
    else if pattern[0] == '\\' then
      |pattern| > 1 && s != "" && Fold(pattern[1]) == Fold(s[0]) && Matches(pattern[2..], s[1..])
    else
      s != "" && Fold(pattern[0]) == Fold(s[0]) && Matches(pattern[1..], s[1..])
  }

  /** Puts the escape character before every character LIKE would interpret. */
  function EscapeLike(s: string): (r: string) {
    if s == "" then ""
    else (if Special(s[0]) then ['\\', s[0]] else [s[0]]) + EscapeLike(s[1..])
  }

  function Unescape(s: string): (r: string) {
    if s == "" then ""
    else if s[0] == '\\' && |s| > 1 then [s[1]] + Unescape(s[2..])
    else [s[0]] + Unescape(s[1..])
  }

  /** q occurs in s at offset k, up to ASCII case. */
  predicate OccursAt(q: string, s: string, k: nat) {
    k + |q| <= |s| && SameText(q, s[k..k + |q|])
  }

  ghost predicate Occurs(q: string, s: string) {
    exists k: nat :: OccursAt(q, s, k)
  }

  lemma {:induction false} PercentMatchesEverything(s: string)
    ensures Matches("%", s)
  {
    if s != "" {
      PercentMatchesEverything(s[1..]);
    }
  }

  /** A leading % tries every suffix. */
  lemma {:induction false} LeadingPercent(pattern: string, s: string)
    ensures Matches("%" + pattern, s) <==> exists k: nat :: k <= |s| && Matches(pattern, s[k..])
  {
    var whole := "%" + pattern;
    assert whole[1..] == pattern;
    assert s[0..] == s;
    if s != "" {
      LeadingPercent(pattern, s[1..]);
      forall k: nat | k <= |s[1..]| ensures s[1..][k..] == s[k + 1..] {}
      if k: nat :| k <= |s| && Matches(pattern, s[k..]) {
        if k > 0 {
          assert s[1..][k - 1..] == s[k..];
        }
      }
    } else if Matches(whole, s) {
      assert Matches(pattern, s[0..]);
    }
  }

  /** An escaped text matches itself and nothing else, whatever follows it in the pattern. */
  lemma {:induction false} EscapedPrefix(q: string, rest: string, s: string)
    ensures Matches(EscapeLike(q) + rest, s) <==> |q| <= |s| && SameText(q, s[..|q|]) && Matches(rest, s[|q|..])
  {
    var pattern := EscapeLike(q) + rest;
    if q == "" {
      assert pattern == rest && s[0..] == s;
    } else {
      var c, tail := q[0], EscapeLike(q[1..]) + rest;
      assert pattern == (if Special(c) then ['\\', c] else [c]) + tail;
      assert Matches(pattern, s) <==> s != "" && Fold(c) == Fold(s[0]) && Matches(tail, s[1..]) by {
        if Special(c) {
          assert pattern[2..] == tail;
        } else {
          assert pattern[1..] == tail;
        }
      }
      if s != "" {
        EscapedPrefix(q[1..], rest, s[1..]);
        if |q| <= |s| {
          assert s[1..][|q| - 1..] == s[|q|..];
          SameTextCons(q, s[..|q|]);
          assert s[..|q|][1..] == s[1..][..|q| - 1];
        }
      }
    }
  }

  lemma SameTextCons(a: string, b: string)
    requires |a| == |b| > 0
    ensures SameText(a, b) <==> Fold(a[0]) == Fold(b[0]) && SameText(a[1..], b[1..])
  {
    if Fold(a[0]) == Fold(b[0]) && SameText(a[1..], b[1..]) {
      forall i | 0 <= i < |a| ensures Fold(a[i]) == Fold(b[i]) {
        if i > 0 {
          assert a[i] == a[1..][i - 1] && b[i] == b[1..][i - 1];
        }
      }
    }
  }

  /** A search finds exactly the texts that contain the query, up to ASCII case. */
  lemma SearchFindsSubstrings(q: string, s: string)
    ensures Matches("%" + EscapeLike(q) + "%", s) <==> Occurs(q, s)
  {
    var inner := EscapeLike(q) + "%";
    assert "%" + EscapeLike(q) + "%" == "%" + inner;
    LeadingPercent(inner, s);
    forall k: nat | k <= |s|
      ensures Matches(inner, s[k..]) <==> OccursAt(q, s, k)
    {
      EscapedPrefix(q, "%", s[k..]);
      if k + |q| <= |s| {
        PercentMatchesEverything(s[k..][|q|..]);
        assert s[k..][..|q|] == s[k..k + |q|];
      }
    }
  }

  lemma {:induction false} UnescapeUndoes(s: string)
    ensures Unescape(EscapeLike(s)) == s
  {
    if s != "" {
      UnescapeUndoes(s[1..]);
      var rest := EscapeLike(s[1..]);
      if Special(s[0]) {
        assert EscapeLike(s)[2..] == rest;
      } else {
        assert EscapeLike(s)[1..] == rest;
      }
    }
  }

  lemma EscapeLikeInjective(a: string, b: string)
    requires EscapeLike(a) == EscapeLike(b)
    ensures a == b
  {
    UnescapeUndoes(a);
    UnescapeUndoes(b);
  }

  /** Without escaping, a query's own wildcards would match texts that do not contain it. */
  lemma UnescapedSearchIsWrong()
    ensures Matches("%" + "_" + "%", "a") && !Occurs("_", "a")
  {
    assert ("%" + "_" + "%")[1..] == "_%";
    assert "_%"[1..] == "%";
    PercentMatchesEverything("");
    assert "a"[1..] == "";
    assert Matches("_%", "a");
    forall k: nat ensures !OccursAt("_", "a", k) {
      if k == 0 { assert "a"[0..1][0] == 'a'; }
    }
  }

  /** A pattern without wildcards matches only its own text, up to case. */
  lemma {:induction false} PlainMatches(plain: string, s: string)
    requires forall i :: 0 <= i < |plain| ==> !Special(plain[i])
    ensures Matches(plain, s) <==> SameText(plain, s)
  {
    PlainIsEscaped(plain);
    EscapedPrefix(plain, "", s);
    assert EscapeLike(plain) + "" == plain;
    if |plain| == |s| {
      assert s[..|plain|] == s;
    }
  }

  /** The row filters of the store, such as '%@lid', are plain suffix tests up to case. */
  lemma SuffixFilter(suffix: string, s: string)
    requires forall i :: 0 <= i < |suffix| ==> !Special(suffix[i])
    ensures Matches("%" + suffix, s) <==> |suffix| <= |s| && SameText(suffix, s[|s| - |suffix|..])
  {
    LeadingPercent(suffix, s);
    if Matches("%" + suffix, s) {
      var k: nat :| k <= |s| && Matches(suffix, s[k..]);
      PlainMatches(suffix, s[k..]);
      assert k == |s| - |suffix|;
    } else if |suffix| <= |s| {
      PlainMatches(suffix, s[|s| - |suffix|..]);
    }
  }

  lemma {:induction false} PlainIsEscaped(s: string)
    requires forall i :: 0 <= i < |s| ==> !Special(s[i])
    ensures EscapeLike(s) == s
  {
    if s != "" {
      PlainIsEscaped(s[1..]);
    }
  }
}
