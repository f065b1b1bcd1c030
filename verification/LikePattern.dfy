/** LIKE patterns built from user input (app/sql_like.py): the escaped needle means
    "contains this literal text" under the SQL `<like predicate>`
    (section 8.5 of ISO/IEC 9075-2). */
module LikePattern {
  import opened PyText

  const LIKE_ESCAPE := '\\'

  // `text.replace(c, by)` for a one-character target.
  function Replace(text: string, c: char, sub: string): string {
    if text == [] then []
    else (if text[0] == c then sub else [text[0]]) + Replace(text[1..], c, sub)
  }

  function EscapeLike(text: string): string {
    Replace(Replace(Replace(text, LIKE_ESCAPE, [LIKE_ESCAPE, LIKE_ESCAPE]),
                    '%', [LIKE_ESCAPE, '%']),
            '_', [LIKE_ESCAPE, '_'])
  }

  function ContainsPattern(needle: string): string {
    "%" + EscapeLike(needle) + "%"
  }

  // The pattern that looks for accounts of one user whatever the domain: `needle@%`.
  function AccountPattern(name: string): string {
    EscapeLike(name) + "@%"
  }

  // ----- The SQL like predicate with an ESCAPE character

  predicate IsWildcard(c: char) { c == '%' || c == '_' }

  // Every escape character is followed by a wildcard or by itself; otherwise the
  // predicate raises "invalid escape sequence".
  predicate ValidPattern(pattern: string, esc: char) {
    if pattern == [] then true
    else if pattern[0] == esc then
      |pattern| >= 2 && (IsWildcard(pattern[1]) || pattern[1] == esc) && ValidPattern(pattern[2..], esc)
    else ValidPattern(pattern[1..], esc)
  }

  ghost predicate Matches(pattern: string, text: string, esc: char)
    requires ValidPattern(pattern, esc)
  {
    if pattern == [] then text == []
    else if pattern[0] == esc then
      text != [] && text[0] == pattern[1] && Matches(pattern[2..], text[1..], esc)
    else if pattern[0] == '%' then
      exists k :: 0 <= k <= |text| && Matches(pattern[1..], text[k..], esc)
    else
      text != [] && (pattern[0] == '_' || text[0] == pattern[0]) && Matches(pattern[1..], text[1..], esc)
  }

  // `needle` occurs in `text` as a contiguous block.
  ghost predicate Occurs(needle: string, text: string) {
    exists k :: 0 <= k <= |text| && needle <= text[k..]
  }

  // ----- Three replacements are one pass over the characters

  function EscapeChar(c: char): string {
    if c == LIKE_ESCAPE || IsWildcard(c) then [LIKE_ESCAPE, c] else [c]
  }

  function EscapeEach(text: string): string {
    if text == [] then [] else EscapeChar(text[0]) + EscapeEach(text[1..])
  }

  lemma {:induction false} ReplaceConcat(a: string, b: string, c: char, sub: string)
    ensures Replace(a + b, c, sub) == Replace(a, c, sub) + Replace(b, c, sub)
  {
    if a == [] {
      assert a + b == b;
    } else {
      ReplaceConcat(a[1..], b, c, sub);
      assert (a + b)[0] == a[0] && (a + b)[1..] == a[1..] + b;
      JoinAssociates(if a[0] == c then sub else [a[0]], Replace(a[1..], c, sub), Replace(b, c, sub));
    }
  }

  lemma ReplaceShort(a: char, b: char, c: char, sub: string)
    ensures Replace([a], c, sub) == if a == c then sub else [a]
    ensures Replace([a, b], c, sub) == (if a == c then sub else [a]) + (if b == c then sub else [b])
  {
    assert [a, b] == [a] + [b];
    ReplaceConcat([a], [b], c, sub);
  }

  lemma {:induction false} ThreePassesAreOne(text: string)
    ensures EscapeLike(text) == EscapeEach(text)
  {
    if text != [] {
      var c := text[0];
      ThreePassesAreOne(text[1..]);
      var first := Replace([c], LIKE_ESCAPE, [LIKE_ESCAPE, LIKE_ESCAPE]);
      var rest1 := Replace(text[1..], LIKE_ESCAPE, [LIKE_ESCAPE, LIKE_ESCAPE]);
      ReplaceShort(c, c, LIKE_ESCAPE, [LIKE_ESCAPE, LIKE_ESCAPE]);
      ReplaceConcat(first, rest1, '%', [LIKE_ESCAPE, '%']);
      ReplaceShort(c, c, '%', [LIKE_ESCAPE, '%']);
      ReplaceShort(LIKE_ESCAPE, LIKE_ESCAPE, '%', [LIKE_ESCAPE, '%']);
      var second := Replace(first, '%', [LIKE_ESCAPE, '%']);
      ReplaceConcat(second, Replace(rest1, '%', [LIKE_ESCAPE, '%']), '_', [LIKE_ESCAPE, '_']);
      ReplaceShort(c, c, '_', [LIKE_ESCAPE, '_']);
      ReplaceShort(LIKE_ESCAPE, LIKE_ESCAPE, '_', [LIKE_ESCAPE, '_']);
      ReplaceShort(LIKE_ESCAPE, '%', '_', [LIKE_ESCAPE, '_']);
    }
  }

  // ----- Meaning of an escaped prefix

  // An escaped character in front of a pattern consumes exactly that character.
  lemma EscapedCharacter(c: char, tail: string, text: string)
    requires ValidPattern(tail, LIKE_ESCAPE)
    ensures ValidPattern(EscapeChar(c) + tail, LIKE_ESCAPE)
    ensures Matches(EscapeChar(c) + tail, text, LIKE_ESCAPE)
       <==> text != [] && text[0] == c && Matches(tail, text[1..], LIKE_ESCAPE)
  {
    var p := EscapeChar(c) + tail;
    assert p[|EscapeChar(c)|..] == tail;
  }

  lemma {:induction false} EscapedValid(needle: string, tail: string)
    requires ValidPattern(tail, LIKE_ESCAPE)
    ensures ValidPattern(EscapeEach(needle) + tail, LIKE_ESCAPE)
  {
    if needle == [] {
      assert EscapeEach(needle) + tail == tail;
    } else {
      EscapedValid(needle[1..], tail);
      JoinAssociates(EscapeChar(needle[0]), EscapeEach(needle[1..]), tail);
      EscapedCharacter(needle[0], EscapeEach(needle[1..]) + tail, []);
    }
  }

  // An escaped needle in front of a pattern consumes exactly the needle.
  lemma {:induction false} EscapedPrefix(needle: string, tail: string, text: string)
    requires ValidPattern(tail, LIKE_ESCAPE)
    ensures ValidPattern(EscapeEach(needle) + tail, LIKE_ESCAPE)
    ensures Matches(EscapeEach(needle) + tail, text, LIKE_ESCAPE)
       <==> needle <= text && Matches(tail, text[|needle|..], LIKE_ESCAPE)
  {
    EscapedValid(needle, tail);
    if needle == [] {
      assert EscapeEach(needle) + tail == tail;
      assert text[0..] == text;
    } else {
      EscapedValid(needle[1..], tail);
      JoinAssociates(EscapeChar(needle[0]), EscapeEach(needle[1..]), tail);
      EscapedCharacter(needle[0], EscapeEach(needle[1..]) + tail, text);
      PrefixStep(needle, text);
      if text != [] && text[0] == needle[0] {
        EscapedPrefix(needle[1..], tail, text[1..]);
      }
    }
  }

  lemma PrefixStep(needle: string, text: string)
    requires needle != []
    ensures needle <= text <==> text != [] && text[0] == needle[0] && needle[1..] <= text[1..]
    ensures needle <= text ==> text[1..][|needle[1..]|..] == text[|needle|..]
  {
    if text != [] && text[0] == needle[0] && needle[1..] <= text[1..] {
      assert needle == [needle[0]] + needle[1..] && text == [text[0]] + text[1..];
    }
  }

  lemma PercentMatchesAll(text: string)
    ensures ValidPattern("%", LIKE_ESCAPE) && Matches("%", text, LIKE_ESCAPE)
  {
    var pattern := "%";
    assert pattern[1..] == [] && text[|text|..] == [];
    assert Matches(pattern[1..], text[|text|..], LIKE_ESCAPE);
  }

  // Main result: the pattern is always valid and matches exactly the texts that contain the needle.
  lemma ContainsMeansOccurs(needle: string, text: string)
    ensures ValidPattern(ContainsPattern(needle), LIKE_ESCAPE)
    ensures Matches(ContainsPattern(needle), text, LIKE_ESCAPE) <==> Occurs(needle, text)
  {
    ThreePassesAreOne(needle);
    var pattern := ContainsPattern(needle);
    var body := EscapeEach(needle) + "%";
    assert pattern[1..] == body;
    PercentMatchesAll([]);
    EscapedValid(needle, "%");
    forall k | 0 <= k <= |text|
      ensures Matches(body, text[k..], LIKE_ESCAPE) <==> needle <= text[k..]
    {
      EscapedPrefix(needle, "%", text[k..]);
      if needle <= text[k..] {
        PercentMatchesAll(text[k..][|needle|..]);
      }
    }
  }

  // The account lookup matches exactly the texts that start with the literal name and `@`.
  lemma AccountPatternMeansPrefix(name: string, text: string)
    ensures ValidPattern(AccountPattern(name), LIKE_ESCAPE)
    ensures Matches(AccountPattern(name), text, LIKE_ESCAPE) <==> name + "@" <= text
  {
    ThreePassesAreOne(name);
    var tail := "@%";
    assert tail[1..] == "%";
    PercentMatchesAll([]);
    EscapedPrefix(name, tail, text);
    if name <= text && |text| > |name| {
      PercentMatchesAll(text[|name|..][1..]);
      assert text[|name|..][0] == text[|name|];
    }
  }

  // ----- Case-insensitive use: `lower(column) LIKE lower(pattern)`

  function Fold(f: char -> char, s: string): string {
    if s == [] then [] else [f(s[0])] + Fold(f, s[1..])
  }

  // Case folding leaves the three special characters alone and maps nothing else onto them.
  ghost predicate KeepsSpecials(f: char -> char) {
    forall c :: IsSpecial(f(c)) || IsSpecial(c) ==> f(c) == c
  }

  predicate IsSpecial(c: char) { c == LIKE_ESCAPE || IsWildcard(c) }

  lemma {:induction false} FoldConcat(f: char -> char, a: string, b: string)
    ensures Fold(f, a + b) == Fold(f, a) + Fold(f, b)
  {
    if a == [] {
      assert a + b == b;
    } else {
      FoldConcat(f, a[1..], b);
      assert (a + b)[0] == a[0] && (a + b)[1..] == a[1..] + b;
      JoinAssociates([f(a[0])], Fold(f, a[1..]), Fold(f, b));
    }
  }

  lemma {:induction false} FoldEscaped(f: char -> char, needle: string)
    requires KeepsSpecials(f)
    ensures Fold(f, EscapeEach(needle)) == EscapeEach(Fold(f, needle))
  {
    if needle != [] {
      var c := needle[0];
      FoldEscaped(f, needle[1..]);
      FoldConcat(f, EscapeChar(c), EscapeEach(needle[1..]));
      assert IsSpecial(f(c)) <==> IsSpecial(c);
      assert f(LIKE_ESCAPE) == LIKE_ESCAPE by { assert IsSpecial(LIKE_ESCAPE); }
      assert Fold(f, [c]) == [f(c)];
      assert [LIKE_ESCAPE, c][1..] == [c];
      assert Fold(f, EscapeChar(c)) == EscapeChar(f(c));
    }
  }

  // `ilike`: the folded pattern matches the folded text exactly when the folded needle occurs in it.
  lemma IlikeMeansFoldedOccurs(f: char -> char, needle: string, text: string)
    requires KeepsSpecials(f)
    ensures ValidPattern(Fold(f, ContainsPattern(needle)), LIKE_ESCAPE)
    ensures Matches(Fold(f, ContainsPattern(needle)), Fold(f, text), LIKE_ESCAPE)
       <==> Occurs(Fold(f, needle), Fold(f, text))
  {
    ThreePassesAreOne(needle);
    ThreePassesAreOne(Fold(f, needle));
    FoldEscaped(f, needle);
    assert f('%') == '%' by { assert IsSpecial('%'); }
    assert Fold(f, "%") == "%";
    FoldConcat(f, "%", EscapeEach(needle));
    FoldConcat(f, "%" + EscapeEach(needle), "%");
    ContainsMeansOccurs(Fold(f, needle), Fold(f, text));
  }

  // ----- Why the escape character is replaced first

  function EscapeLast(text: string): string {
    Replace(Replace(Replace(text, '%', [LIKE_ESCAPE, '%']), '_', [LIKE_ESCAPE, '_']),
            LIKE_ESCAPE, [LIKE_ESCAPE, LIKE_ESCAPE])
  }

  // Escaping backslashes last turns the needle `%` into a wildcard: the pattern then
  // matches a lone backslash, in which `%` does not occur.
  lemma EscapeOrderMatters()
    ensures var pattern := "%" + EscapeLast("%") + "%";
      ValidPattern(pattern, LIKE_ESCAPE) && Matches(pattern, "\\", LIKE_ESCAPE) && !Occurs("%", "\\")
  {
    ReplaceShort('%', '%', '%', "\\%");
    ReplaceShort('\\', '%', '_', "\\_");
    ReplaceShort('\\', '%', '\\', "\\\\");
    var pattern, text := "%" + EscapeLast("%") + "%", "\\";
    PercentMatchesAll([]);
    MatchesEmptyByPercents();
    EscapedPrefix("\\", "%%", text);
    assert text[|text|..] == [] && text[0..] == text;
    assert pattern[1..] == EscapeEach("\\") + "%%";
    assert Matches(pattern[1..], text[0..], LIKE_ESCAPE);
    assert forall k :: 0 <= k <= 1 && "%" <= text[k..] ==> text[k..][0] == '%';
  }

  lemma MatchesEmptyByPercents()
    ensures ValidPattern("%%", LIKE_ESCAPE) && Matches("%%", [], LIKE_ESCAPE)
  {
    var pattern, text: string := "%%", [];
    PercentMatchesAll(text);
    assert pattern[1..] == "%" && text[0..] == text;
    assert Matches(pattern[1..], text[0..], LIKE_ESCAPE);
  }
}
