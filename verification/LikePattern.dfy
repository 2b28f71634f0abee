/** Searching by a literal query with the LIKE predicate, clause 8.5 of ISO/IEC 9075-2, escape character backslash. */
module LikePattern {
  import opened Sequences

  predicate IsSyntax(c: char) {
    c == '\\' || c == '%' || c == '_'
  }

  /** Puts a backslash before every character that has a meaning in a pattern. */
  function Escaped(query: string): string {
    if query == "" then ""
    else (if IsSyntax(query[0]) then ['\\', query[0]] else [query[0]]) + Escaped(query[1..])
  }

  function Pattern(query: string): string {
    "%" + Escaped(query) + "%"
  }

  /** The predicate. A pattern that ends in the middle of an escape matches nothing. */
  predicate Like(text: string, pattern: string)
    decreases |pattern|
  {
    if pattern == "" then text == ""
    else if pattern[0] == '%' then exists n :: 0 <= n <= |text| && Like(text[n..], pattern[1..])
    else if pattern[0] == '_' then text != "" && Like(text[1..], pattern[1..])
    else if pattern[0] == '\\' then
      |pattern| >= 2 && text != "" && text[0] == pattern[1] && Like(text[1..], pattern[2..])
    else text != "" && text[0] == pattern[0] && Like(text[1..], pattern[1..])
  }

  ghost predicate OccursIn(query: string, text: string) {
    exists n :: 0 <= n <= |text| && query <= text[n..]
  }

  /** A percent sign matches any text, an underscore any one character, an escaped character itself, as every other. */
  lemma LikeReads(text: string, c: char, rest: string)
    ensures Like(text, ['%'] + rest) <==> exists n :: 0 <= n <= |text| && Like(text[n..], rest)
    ensures Like(text, ['_'] + rest) <==> text != "" && Like(text[1..], rest)
    ensures Like(text, ['\\', c] + rest) <==> text != "" && text[0] == c && Like(text[1..], rest)
    ensures c != '%' && c != '_' && c != '\\' ==>
              (Like(text, [c] + rest) <==> text != "" && text[0] == c && Like(text[1..], rest))
    ensures Like(text, "") <==> text == ""
  {
    assert (['%'] + rest)[1..] == rest && (['_'] + rest)[1..] == rest && ([c] + rest)[1..] == rest;
    assert (['\\', c] + rest)[2..] == rest;
  }

  /** A final `%` matches the rest of any text. */
  lemma {:induction false} AnythingMatches(text: string)
    ensures Like(text, "%")
  {
    assert "%"[1..] == "" && text[|text|..] == "";
    assert Like(text[|text|..], "%"[1..]);
  }

  /** An escaped query followed by `%` matches exactly the texts that begin with the query. */
  lemma {:induction false} EscapedMatchesPrefix(text: string, query: string)
    ensures Like(text, Escaped(query) + "%") <==> query <= text
    decreases |query|
  {
    if query == "" {
      AnythingMatches(text);
      assert Escaped(query) + "%" == "%";
    } else {
      var pattern, rest := Escaped(query) + "%", Escaped(query[1..]) + "%";
      if IsSyntax(query[0]) {
        assert pattern[2..] == rest && pattern[0] == '\\' && pattern[1] == query[0];
      } else {
        assert pattern[1..] == rest && pattern[0] == query[0];
      }
      if text != "" {
        EscapedMatchesPrefix(text[1..], query[1..]);
        assert query == [query[0]] + query[1..] && text == [text[0]] + text[1..];
        assert query <= text <==> query[0] == text[0] && query[1..] <= text[1..];
      }
    }
  }

  /** For every query and text, with any mix of backslashes, percent signs and underscores: the search pattern matches
    * exactly when the query occurs literally in the text.
    */
  lemma PatternFindsLiteral(text: string, query: string)
    ensures Like(text, Pattern(query)) <==> OccursIn(query, text)
  {
    var pattern := Pattern(query);
    assert pattern[1..] == Escaped(query) + "%";
    forall n | 0 <= n <= |text| ensures Like(text[n..], pattern[1..]) <==> query <= text[n..] {
      EscapedMatchesPrefix(text[n..], query);
    }
  }

  // ---- case-insensitive search ----

  function Folded(fold: char -> char, text: string): string {
    if text == "" then "" else [fold(text[0])] + Folded(fold, text[1..])
  }

  /** Folding neither makes nor loses a pattern character, as lower-casing does not. */
  ghost predicate KeepsSyntax(fold: char -> char) {
    forall c :: IsSyntax(fold(c)) || IsSyntax(c) ==> fold(c) == c
  }

  /** ILIKE folds the text and the pattern and then matches. */
  predicate ILike(fold: char -> char, text: string, pattern: string) {
    Like(Folded(fold, text), Folded(fold, pattern))
  }

  lemma {:induction false} FoldedJoins(fold: char -> char, a: string, b: string)
    ensures Folded(fold, a + b) == Folded(fold, a) + Folded(fold, b)
    decreases |a|
  {
    if a == "" {
      assert a + b == b;
    } else {
      FoldedJoins(fold, a[1..], b);
      assert (a + b)[1..] == a[1..] + b && (a + b)[0] == a[0];
      Reassociate([fold(a[0])], Folded(fold, a[1..]), Folded(fold, b));
    }
  }

  lemma {:induction false} EscapedFolds(fold: char -> char, query: string)
    requires KeepsSyntax(fold)
    ensures Folded(fold, Escaped(query)) == Escaped(Folded(fold, query))
    decreases |query|
  {
    if query != "" {
      EscapedFolds(fold, query[1..]);
      var head := if IsSyntax(query[0]) then ['\\', query[0]] else [query[0]];
      FoldedJoins(fold, head, Escaped(query[1..]));
      assert fold('\\') == '\\';
      assert Folded(fold, query)[1..] == Folded(fold, query[1..]);
      if IsSyntax(query[0]) {
        assert head[1..] == [query[0]] && head[1..][1..] == "";
      } else {
        assert head[1..] == "";
      }
    }
  }

  /** The same up to letter case. */
  lemma SearchFindsLiteralUpToCase(fold: char -> char, text: string, query: string)
    requires KeepsSyntax(fold)
    ensures ILike(fold, text, Pattern(query)) <==> OccursIn(Folded(fold, query), Folded(fold, text))
  {
    FoldedJoins(fold, "%" + Escaped(query), "%");
    FoldedJoins(fold, "%", Escaped(query));
    EscapedFolds(fold, query);
    assert fold('%') == '%';
    assert Folded(fold, "%") == "%" by { assert "%"[1..] == ""; }
    PatternFindsLiteral(Folded(fold, text), Folded(fold, query));
  }
}
