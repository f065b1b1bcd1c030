/** What the schemas of the realm forms (app/admin/schemas.py) accept, and how they normalise it. */
module RealmForms {
  import opened PyText

  const MAX_SLUG: nat := 40
  const MAX_URL: nat := 2048
  const MAX_CLIENT_ID: nat := 256
  const MAX_SECRET: nat := 512

  const HTTPS := "https://"

  // `s.rstrip("/")`.
  function RStripSlash(s: string): (r: string)
    ensures r <= s
    ensures r == [] || r[|r| - 1] != '/'
  {
    if s != [] && s[|s| - 1] == '/' then RStripSlash(s[..|s| - 1]) else s
  }

  function NormIssuer(s: string): string { RStripSlash(Strip(s)) }

  // The lengths are those of the text as sent.
  predicate IssuerOk(s: string) { |s| <= MAX_URL && HTTPS <= Strip(s) }

  predicate ClientOk(s: string) { |s| <= MAX_CLIENT_ID && Strip(s) != "" }

  predicate SecretOk(s: string) { |s| <= MAX_SECRET && Strip(s) != "" }

  predicate SlugChar(c: char) { 'a' <= c <= 'z' || '0' <= c <= '9' || c == '-' }

  predicate SlugOk(s: string) {
    |s| <= MAX_SLUG && 2 <= |Lower(Strip(s))| <= 40 && forall c :: c in Lower(Strip(s)) ==> SlugChar(c)
  }

  // The bounds and shapes in plain numbers.
  lemma SchemaExactly(s: string)
    ensures IssuerOk(s) <==> |s| < 2049 && exists rest :: Strip(s) == "https://" + rest
    ensures ClientOk(s) <==> |s| < 257 && |Strip(s)| > 0
    ensures SecretOk(s) <==> |s| < 513 && |Strip(s)| > 0
    ensures var slug := Lower(Strip(s));
      SlugOk(s) <==> |s| < 41 && 1 < |slug| < 41
                     && forall c :: c in slug ==> 97 <= c as int <= 122 || 48 <= c as int <= 57 || c as int == 45
  {
    if HTTPS <= Strip(s) {
      assert Strip(s) == HTTPS + Strip(s)[|HTTPS|..];
    }
  }

  lemma {:induction false} RStripLength(s: string)
    ensures |RStrip(s)| <= |s|
    ensures s != [] && IsSpace(s[|s| - 1]) ==> |RStrip(s)| < |s|
  {
    RStripPrefix(s);
    if s != [] && IsSpace(s[|s| - 1]) {
      RStripLength(s[..|s| - 1]);
    }
  }

  lemma {:induction false} LStripLength(s: string)
    ensures |LStrip(s)| <= |s|
    ensures s != [] && IsSpace(s[0]) ==> |LStrip(s)| < |s|
  {
    if s != [] && IsSpace(s[0]) {
      LStripLength(s[1..]);
    }
  }

  // Text with a blank at an end is not a fixed point of stripping.
  lemma StripShortens(s: string)
    ensures |Strip(s)| <= |s|
    ensures Strip(s) == s <==> Trimmed(s)
  {
    LStripLength(s);
    RStripLength(LStrip(s));
    if Trimmed(s) {
      StripNoop(s);
    }
  }

  // A normalised issuer is normalised again to itself exactly when no blank was left before its last slashes.
  lemma NormIssuerSettles(s: string)
    ensures var once := NormIssuer(s);
      NormIssuer(once) == once <==> once == "" || !IsSpace(once[|once| - 1])
  {
    var once := NormIssuer(s);
    StripTrimmed(s);
    StripShortens(once);
    if once != "" && !IsSpace(once[|once| - 1]) {
      assert once[0] == Strip(s)[0];
      assert Trimmed(once) && RStripSlash(once) == once;
    }
  }

  // An issuer, client and slug that are already normal are taken as they are.
  lemma NormalIssuer(s: string)
    requires Trimmed(s) && (s == [] || s[|s| - 1] != '/')
    ensures NormIssuer(s) == s
  {
    StripNoop(s);
  }

  // One slash at the end is dropped.
  lemma SlashIsDropped(s: string)
    requires s != [] && Trimmed(s) && s[|s| - 1] != '/'
    ensures NormIssuer(s + "/") == s && Strip(s + "/") == s + "/"
  {
    assert !IsSpace('/');
    var t := s + "/";
    assert t[0] == s[0] && t[|t| - 1] == '/' && t[..|t| - 1] == s;
    StripNoop(t);
    assert RStripSlash(t) == RStripSlash(s) == s;
  }

  // ----- Some texts as the schemas read them

  lemma PlainTexts()
    ensures SlugOk("main") && Lower(Strip("main")) == "main"
    ensures IssuerOk("https://idp") && ClientOk("portal") && Strip("portal") == "portal" && SecretOk("s") && Strip("s") == "s"
  {
    StripNoop("main");
    assert "main"[1..] == "ain" && "ain"[1..] == "in" && "in"[1..] == "n" && "n"[1..] == "";
    assert Lower("n") == "n" && Lower("in") == "in" && Lower("ain") == "ain";
    StripNoop("https://idp");
    StripNoop("portal");
    StripNoop("s");
  }

  lemma OwnIssuer()
    ensures IssuerOk("https://own") && NormIssuer("https://own") == "https://own"
  {
    NormalIssuer("https://own");
    StripNoop("https://own");
  }

  lemma OtherIssuer()
    ensures IssuerOk("https://other") && NormIssuer("https://other") == "https://other"
  {
    NormalIssuer("https://other");
    StripNoop("https://other");
  }

  lemma SlashedIssuer()
    ensures IssuerOk("https://own/") && NormIssuer("https://own/") == "https://own"
  {
    SlashIsDropped("https://own");
    assert "https://own" + "/" == "https://own/";
  }

  lemma PaddedSecret()
    ensures Strip(" s ") == "s"
  {
    assert " s "[1..] == "s " && "s "[..1] == "s";
    assert LStrip(" s ") == "s " && RStrip("s ") == "s";
  }
}
