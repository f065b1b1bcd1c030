/** Which text the cookie scanner reads as a setting, in a file written by any hand (app/admin/session_alignment.py). */
module CookieLines {
  import opened PyText
  import opened OAuthConfig

  // What the scanner takes a character for when it ignores case.
  function FoldedChar(c: char): char {
    if c == 0x17F as char then 's' else if c == 0x212A as char then 'k' else LowerChar(c)
  }

  function Folded(s: string): (r: string)
    ensures |r| == |s| && forall i :: 0 <= i < |s| ==> r[i] == FoldedChar(s[i])
  {
    seq(|s|, i requires 0 <= i < |s| => FoldedChar(s[i]))
  }

  // Tab, line feed, form feed, carriage return and space; not the vertical tab.
  ghost predicate White(c: char) { c as int == 32 || 9 <= c as int <= 10 || 12 <= c as int <= 13 }

  ghost predicate Blanks(b: string) { forall i :: 0 <= i < |b| ==> White(b[i]) }

  ghost predicate KeyWritten(key: string, p: Pattern) {
    match p
    case Duration => key == "cookie_expire" || key == "cookie_refresh"
    case Flag => Folded(key) == "cookie_secure" || Folded(key) == "cookie_httponly"
    case SameSite => Folded(key) == "cookie_samesite"
  }

  ghost predicate ValueWritten(value: string, text: string, p: Pattern) {
    if p.Flag? then value == text && (Folded(text) == "true" || Folded(text) == "false")
    else text != "" && '"' !in text && value == "\"" + text + "\""
  }

  // Blanks of the text's start reach the end of a line here.
  ghost predicate EndsAt(s: string, n: nat) {
    n <= |s| && Blanks(s[..n]) && (n == |s| || s[n] == '\n')
  }

  ghost predicate Longest(s: string, n: nat) {
    EndsAt(s, n) && forall k: nat :: EndsAt(s, k) ==> k <= n
  }

  datatype Line = Line(indent: string, key: string, before: string, after: string, value: string, text: string, tail: string)

  function Spelled(l: Line): string {
    l.indent + (l.key + (l.before + (['='] + (l.after + (l.value + l.tail)))))
  }

  ghost predicate Setting(l: Line, p: Pattern) {
    && Blanks(l.indent) && Blanks(l.before) && Blanks(l.after)
    && KeyWritten(l.key, p) && ValueWritten(l.value, l.text, p)
    && exists n: nat :: EndsAt(l.tail, n)
  }

  lemma {:induction false} BlanksAreSkipped(b: string, t: string)
    requires Blanks(b)
    ensures SkipBlank(b + t) == SkipBlank(t)
  {
    if b == [] {
      assert b + t == t;
    } else {
      assert (b + t)[1..] == b[1..] + t;
      BlanksAreSkipped(b[1..], t);
    }
  }

  lemma {:induction false} SkippedAreBlanks(s: string)
    ensures var n := |s| - |SkipBlank(s)|; Blanks(s[..n]) && s[n..] == SkipBlank(s)
  {
    if s != [] && Blank(s[0]) {
      SkippedAreBlanks(s[1..]);
      var n := |s| - |SkipBlank(s)|;
      assert s[..n] == [s[0]] + s[1..][..n - 1] && s[n..] == s[1..][n - 1..];
    }
  }

  lemma SameFolded(c: char, lit: char)
    requires 'a' <= lit <= 'z' || lit == '_'
    ensures SameChar(c, lit, true) <==> FoldedChar(c) == lit
    ensures SameChar(c, lit, false) <==> c == lit
  {}

  lemma FoldedStart(s: string, lit: string)
    requires forall i :: 0 <= i < |lit| ==> 'a' <= lit[i] <= 'z' || lit[i] == '_'
    ensures StartsWith(s, lit, true) <==> lit <= Folded(s)
    ensures StartsWith(s, lit, false) <==> lit <= s
  {
    if |lit| <= |s| {
      forall i | 0 <= i < |lit|
        ensures SameChar(s[i], lit[i], true) <==> Folded(s)[i] == lit[i]
        ensures SameChar(s[i], lit[i], false) <==> s[i] == lit[i]
      {
        SameFolded(s[i], lit[i]);
      }
      assert lit <= Folded(s) <==> forall i :: 0 <= i < |lit| ==> lit[i] == Folded(s)[i];
      assert lit <= s <==> forall i :: 0 <= i < |lit| ==> lit[i] == s[i];
    }
  }

  // The keys of the three patterns; only the durations mind the case.
  lemma KeysExactly(s: string)
    ensures KeyLength(s, Duration) == if "cookie_expire" <= s then 13 else if "cookie_refresh" <= s then 14 else 0
    ensures KeyLength(s, Flag)
         == if "cookie_secure" <= Folded(s) then 13 else if "cookie_httponly" <= Folded(s) then 15 else 0
    ensures KeyLength(s, SameSite) == if "cookie_samesite" <= Folded(s) then 15 else 0
  {
    FoldedStart(s, "cookie_expire");
    FoldedStart(s, "cookie_refresh");
    FoldedStart(s, "cookie_secure");
    FoldedStart(s, "cookie_httponly");
    FoldedStart(s, "cookie_samesite");
  }

  lemma KeyIsRead(key: string, t: string, p: Pattern)
    requires KeyWritten(key, p)
    ensures KeyLength(key + t, p) == |key| && |key| > 7 && !Blank(key[0])
  {
    KeysExactly(key + t);
    assert (key + t)[..|key|] == key && Folded(key + t)[..|key|] == Folded(key);
    KeyLetters(key, p);
    assert Folded(key) <= Folded(key + t) && Folded(key + t)[7] == Folded(key)[7];
    assert key <= key + t && (key + t)[7] == key[7];
  }

  lemma KeyLetters(key: string, p: Pattern)
    requires KeyWritten(key, p)
    ensures |key| > 8 && FoldedChar(key[0]) == 'c'
    ensures p.Flag? ==> (FoldedChar(key[7]) == 's' && FoldedChar(key[8]) == 'e') || FoldedChar(key[7]) == 'h'
    ensures p.SameSite? ==> FoldedChar(key[7]) == 's' && FoldedChar(key[8]) == 'a'
  {
    if p.Duration? {
      assert key[0] == 'c' && FoldedChar('c') == 'c';
    } else {
      assert p.SameSite? ==> Folded(key)[7] == 's' && Folded(key)[8] == 'a';
      assert Folded(key)[0] == FoldedChar(key[0]) && Folded(key)[7] == FoldedChar(key[7]) && Folded(key)[8] == FoldedChar(key[8]);
    }
  }

  lemma ReadIsKey(s: string, p: Pattern)
    requires KeyLength(s, p) > 0
    ensures KeyWritten(s[..KeyLength(s, p)], p)
  {
    KeysExactly(s);
    var n := KeyLength(s, p);
    assert Folded(s[..n]) == Folded(s)[..n];
  }

  lemma {:induction false} QuoteFound(s: string)
    ensures var n := QuoteAt(s); '"' !in s[..n] && (n < |s| ==> s[n] == '"')
  {
    if s != [] && s[0] != '"' {
      QuoteFound(s[1..]);
      assert s[..QuoteAt(s)] == [s[0]] + s[1..][..QuoteAt(s[1..])];
    }
  }

  lemma ValueIsRead(value: string, text: string, t: string, p: Pattern)
    requires ValueWritten(value, text, p)
    ensures ValueAt(value + t, p) == (text, |value|) && |value| > 0 && !Blank(value[0])
  {
    if p.Flag? {
      FlagIsRead(value, t);
    } else {
      var s := value + t;
      assert s[1..] == text + (['"'] + t);
      QuoteAfter(text, ['"'] + t);
      assert s[1..][..|text|] == text;
    }
  }

  lemma FlagIsRead(value: string, t: string)
    requires Folded(value) == "true" || Folded(value) == "false"
    ensures ValueAt(value + t, Flag) == (value, |value|) && |value| > 0 && !Blank(value[0])
  {
    var s := value + t;
    FoldedStart(s, "true");
    FoldedStart(s, "false");
    assert Folded(s)[..|value|] == Folded(value) && s[..|value|] == value;
    assert Folded(s)[0] == Folded(value)[0] && FoldedChar(value[0]) == Folded(value)[0];
  }

  lemma ReadIsValue(s: string, p: Pattern)
    requires ValueAt(s, p).1 > 0
    ensures ValueWritten(s[..ValueAt(s, p).1], ValueAt(s, p).0, p)
  {
    var (text, n) := ValueAt(s, p);
    if p.Flag? {
      FoldedStart(s, "true");
      FoldedStart(s, "false");
      assert Folded(s[..n]) == Folded(s)[..n];
    } else {
      QuoteFound(s[1..]);
      assert s[..n] == "\"" + text + "\"";
    }
  }

  lemma {:induction false} TailEnds(s: string)
    ensures TailLength(s).Some? ==> EndsAt(s, TailLength(s).value)
  {
    if s != [] && Blank(s[0]) && TailLength(s[1..]).Some? {
      TailEnds(s[1..]);
      var n := TailLength(s[1..]).value;
      assert s[..n + 1] == [s[0]] + s[1..][..n];
    }
  }

  lemma {:induction false} EndsWithinTail(s: string, n: nat)
    requires EndsAt(s, n)
    ensures TailLength(s).Some? && n <= TailLength(s).value
  {
    if n > 0 {
      assert s[..n][0] == s[0] && s[1..][..n - 1] == s[..n][1..];
      EndsWithinTail(s[1..], n - 1);
    }
  }

  lemma KeyPart(l: Line, v: string, p: Pattern)
    requires Blanks(l.indent) && Blanks(l.before) && Blanks(l.after) && KeyWritten(l.key, p)
    requires v != [] && !Blank(v[0])
    ensures |l.key| > 7
    ensures KeyAndRest(l.indent + (l.key + (l.before + (['='] + (l.after + v)))), p) == Some((KeyName(l.key), v))
  {
    var e := ['='] + (l.after + v);
    var k := l.key + (l.before + e);
    KeyIsRead(l.key, l.before + e, p);
    BlanksAreSkipped(l.indent, k);
    SkipNothing(k);
    KeyEnds(l, k, e, v);
  }

  lemma KeyEnds(l: Line, k: string, e: string, v: string)
    requires Blanks(l.before) && Blanks(l.after) && v != [] && !Blank(v[0])
    requires k == l.key + (l.before + e) && e == ['='] + (l.after + v)
    ensures k[..|l.key|] == l.key && SkipBlank(k[|l.key|..]) == e && SkipBlank(e[1..]) == v
  {
    assert k[|l.key|..] == l.before + e && e[1..] == l.after + v;
    BlanksAreSkipped(l.before, e);
    SkipNothing(e);
    BlanksAreSkipped(l.after, v);
    SkipNothing(v);
  }

  lemma ValuePart(key: string, value: string, text: string, tail: string, n: nat, p: Pattern)
    requires ValueWritten(value, text, p) && EndsAt(tail, n)
    ensures ValueAndRest(key, value + tail, p).Some?
    ensures var m := ValueAndRest(key, value + tail, p).value;
      m.key == key && m.value == text && exists j: nat :: Longest(tail, j) && m.rest == tail[j..]
  {
    ValueIsRead(value, text, tail, p);
    assert (value + tail)[|value|..] == tail;
    EndsWithinTail(tail, n);
    TailIsLongest(tail);
  }

  lemma TailIsLongest(tail: string)
    requires TailLength(tail).Some?
    ensures Longest(tail, TailLength(tail).value)
  {
    TailEnds(tail);
    forall j: nat | EndsAt(tail, j)
      ensures j <= TailLength(tail).value
    {
      EndsWithinTail(tail, j);
    }
  }

  // A line that sets a cookie option is matched with that option and its value, however it is spaced.
  lemma WrittenLineIsRead(l: Line, p: Pattern)
    requires Setting(l, p)
    ensures MatchHere(Spelled(l), p).Some? && |l.key| > 7
    ensures var m := MatchHere(Spelled(l), p).value;
      && m.key == "cookie_" + l.key[7..] && m.value == l.text
      && exists n: nat :: Longest(l.tail, n) && m.rest == l.tail[n..]
  {
    ValueIsRead(l.value, l.text, l.tail, p);
    KeyPart(l, l.value + l.tail, p);
    var n: nat :| EndsAt(l.tail, n);
    ValuePart(KeyName(l.key), l.value, l.text, l.tail, n, p);
  }

  lemma SkipSplits(s: string) returns (b: string)
    ensures Blanks(b) && s == b + SkipBlank(s)
  {
    SkippedAreBlanks(s);
    b := s[..|s| - |SkipBlank(s)|];
  }

  // The parts of a line up to its value.
  ghost predicate Opens(s: string, l: Line, rest: string) {
    s == l.indent + (l.key + (l.before + (['='] + (l.after + rest))))
  }

  lemma Opened(l: Line, s: string, a: string, b: string, c: string)
    requires s == l.indent + a && |l.key| <= |a| && l.key == a[..|l.key|]
    requires a[|l.key|..] == l.before + b && b != [] && b[0] == '=' && b[1..] == l.after + c
    ensures Opens(s, l, c)
  {
    assert b == ['='] + (l.after + c);
    assert a == l.key + (l.before + b);
  }

  lemma ReadKeyIsWritten(s: string, p: Pattern) returns (l: Line)
    requires KeyAndRest(s, p).Some?
    ensures Blanks(l.indent) && Blanks(l.before) && Blanks(l.after) && KeyWritten(l.key, p)
    ensures Opens(s, l, KeyAndRest(s, p).value.1)
  {
    var a := SkipBlank(s);
    var k := KeyLength(a, p);
    var b := SkipBlank(a[k..]);
    ReadIsKey(a, p);
    var indent := SkipSplits(s);
    var before := SkipSplits(a[k..]);
    var after := SkipSplits(b[1..]);
    l := Line(indent, a[..k], before, after, "", "", "");
    Opened(l, s, a, b, SkipBlank(b[1..]));
  }

  // Nothing else is matched.
  lemma ReadLineIsWritten(s: string, p: Pattern)
    requires MatchHere(s, p).Some?
    ensures exists l: Line :: Setting(l, p) && s == Spelled(l)
  {
    var start := ReadKeyIsWritten(s, p);
    var c := KeyAndRest(s, p).value.1;
    var v := ValueAt(c, p);
    var l := start.(value := c[..v.1], text := v.0, tail := c[v.1..]);
    ReadIsValue(c, p);
    TailEnds(l.tail);
    assert EndsAt(l.tail, TailLength(l.tail).value);
    assert l.value + l.tail == c;
    assert Setting(l, p) && s == Spelled(l);
  }

  // ----- Which of several lines for one option counts

  ghost predicate IsLast(ms: seq<Match>, key: string, i: nat) {
    i < |ms| && ms[i].key == key && forall j :: i < j < |ms| ==> ms[j].key != key
  }

  // The setting is the value of the last match for the key, and is absent without one.
  ghost predicate LastCounts(ms: seq<Match>, key: string, setting: Option<string>, lower: bool) {
    match setting
    case None => forall i :: 0 <= i < |ms| ==> ms[i].key != key
    case Some(v) => exists i: nat :: IsLast(ms, key, i) && v == if lower then Lower(ms[i].value) else ms[i].value
  }

  lemma {:induction false} AssignedLast(found: Settings, ms: seq<Match>, lower: bool, key: string)
    requires key in found
    ensures key in Assigned(found, ms, lower)
    ensures forall i: nat :: IsLast(ms, key, i) ==>
      Assigned(found, ms, lower)[key] == Some(if lower then Lower(ms[i].value) else ms[i].value)
    ensures (forall i :: 0 <= i < |ms| ==> ms[i].key != key) ==> Assigned(found, ms, lower)[key] == found[key]
  {
    if ms != [] {
      AssignedLast(found, ms[..|ms| - 1], lower, key);
      forall i: nat | IsLast(ms, key, i) && i < |ms| - 1
        ensures IsLast(ms[..|ms| - 1], key, i)
      {}
    }
  }

  lemma {:induction false} SomeLast(ms: seq<Match>, key: string)
    ensures (exists i: nat :: IsLast(ms, key, i)) || forall i :: 0 <= i < |ms| ==> ms[i].key != key
  {
    if ms != [] {
      var n := |ms| - 1;
      if ms[n].key == key {
        assert IsLast(ms, key, n);
      } else {
        SomeLast(ms[..n], key);
        if i: nat :| IsLast(ms[..n], key, i) {
          assert IsLast(ms, key, i);
        }
      }
    }
  }

  // Key names keep the case of the file after their prefix, and no option is taken for one of another pattern.
  ghost predicate OwnKey(key: string, p: Pattern) {
    match p
    case Duration => key in {"cookie_expire", "cookie_refresh"}
    case Flag => key !in {"cookie_expire", "cookie_refresh", "cookie_samesite"}
    case SameSite => key !in {"cookie_expire", "cookie_refresh", "cookie_secure", "cookie_httponly"}
  }

  ghost predicate OwnKeys(ms: seq<Match>, p: Pattern) { forall i :: 0 <= i < |ms| ==> OwnKey(ms[i].key, p) }

  lemma {:induction false} MatchesOwnKeys(s: string, lineStart: bool, p: Pattern)
    ensures OwnKeys(Scan(s, lineStart, p), p)
    decreases |s|
  {
    if lineStart && MatchHere(s, p).Some? {
      var m := MatchHere(s, p).value;
      MatchOwnKey(s, p);
      MatchesOwnKeys(m.rest, m.lineStart, p);
    } else if s != [] {
      MatchesOwnKeys(s[1..], s[0] == '\n', p);
    }
  }

  lemma OwnName(key: string, p: Pattern)
    requires KeyWritten(key, p) && |key| > 8
    requires p.Flag? ==> (FoldedChar(key[7]) == 's' && FoldedChar(key[8]) == 'e') || FoldedChar(key[7]) == 'h'
    requires p.SameSite? ==> FoldedChar(key[7]) == 's' && FoldedChar(key[8]) == 'a'
    ensures OwnKey(KeyName(key), p)
  {
    if p.Duration? {
      assert key[..7] == "cookie_" && key == key[..7] + key[7..];
    } else {
      assert KeyName(key)[7] == key[7] && KeyName(key)[8] == key[8];
    }
  }

  lemma MatchOwnKey(s: string, p: Pattern)
    requires MatchHere(s, p).Some?
    ensures OwnKey(MatchHere(s, p).value.key, p)
  {
    var a := SkipBlank(s);
    var key := a[..KeyLength(a, p)];
    ReadIsKey(a, p);
    KeyLetters(key, p);
    OwnName(key, p);
  }

  lemma SettingIs(found: Settings, ms: seq<Match>, lower: bool, key: string)
    requires key in found && found[key] == None
    ensures key in Assigned(found, ms, lower) && LastCounts(ms, key, Assigned(found, ms, lower)[key], lower)
  {
    AssignedLast(found, ms, lower, key);
    SomeLast(ms, key);
    if i: nat :| IsLast(ms, key, i) {
      assert Assigned(found, ms, lower)[key] == Some(if lower then Lower(ms[i].value) else ms[i].value);
    }
  }

  // A duration or a flag is what its last line says.
  lemma DurationsExactly(text: string, key: string)
    requires key == "cookie_expire" || key == "cookie_refresh"
    ensures key in ReadSettings(text) && LastCounts(Scan(text, true, Duration), key, ReadSettings(text)[key], false)
  {
    var durations := Assigned(NO_SETTINGS, Scan(text, true, Duration), false);
    var flags := Scan(text, true, Flag);
    SettingIs(NO_SETTINGS, Scan(text, true, Duration), false, key);
    MatchesOwnKeys(text, true, Flag);
    AssignedLast(durations, flags, true, key);
  }

  lemma FlagsExactly(text: string, key: string)
    requires key == "cookie_secure" || key == "cookie_httponly"
    ensures key in ReadSettings(text) && LastCounts(Scan(text, true, Flag), key, ReadSettings(text)[key], true)
  {
    var ms := Scan(text, true, Duration);
    MatchesOwnKeys(text, true, Duration);
    AssignedLast(NO_SETTINGS, ms, false, key);
    SettingIs(Assigned(NO_SETTINGS, ms, false), Scan(text, true, Flag), true, key);
  }

  // The same-site setting is what its first line says.
  lemma SameSiteExactly(text: string)
    ensures "cookie_samesite" in ReadSettings(text)
    ensures var sites := Scan(text, true, SameSite);
      ReadSettings(text)["cookie_samesite"] == if sites == [] then None else Some(Lower(sites[0].value))
  {
    var key, ms := "cookie_samesite", Scan(text, true, Duration);
    MatchesOwnKeys(text, true, Duration);
    MatchesOwnKeys(text, true, Flag);
    AssignedLast(NO_SETTINGS, ms, false, key);
    AssignedLast(Assigned(NO_SETTINGS, ms, false), Scan(text, true, Flag), true, key);
  }
}
