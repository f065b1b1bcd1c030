/** The oauth2-proxy configuration: how it is printed (app/admin/export.py) and how the
    session-alignment report reads it back (app/admin/session_alignment.py).
    Quoted values follow section 7 of RFC 8259 and the String section of TOML v1.0.0. */
module OAuthConfig {
  import opened PyText

  // ----- Quoted strings

  function HexDigit(n: nat): char
    requires n < 16
  {
    if n < 10 then (48 + n) as char else (87 + n) as char
  }

  // `json.dumps(..., ensure_ascii=False)` on one character.
  function EscapeChar(c: char): string {
    if c == '"' then "\\\""
    else if c == '\\' then "\\\\"
    else if c == '\n' then "\\n"
    else if c == '\r' then "\\r"
    else if c == '\t' then "\\t"
    else if c == 8 as char then "\\b"
    else if c == 12 as char then "\\f"
    else if c < ' ' then "\\u00" + [HexDigit(c as int / 16), HexDigit(c as int % 16)]
    else [c]
  }

  function Escape(s: string): string {
    if s == [] then [] else EscapeChar(s[0]) + Escape(s[1..])
  }

  function TomlStr(s: string): string { ['"'] + Escape(s) + ['"'] }

  // ----- The reader of a TOML basic string, from after its opening quote

  function HexValue(c: char): Option<nat> {
    if '0' <= c <= '9' then Some(c as int - 48)
    else if 'a' <= c <= 'f' then Some(c as int - 87)
    else if 'A' <= c <= 'F' then Some(c as int - 55)
    else None
  }

  // The character of a \uXXXX escape; surrogates are not scalar values.
  function UnicodeEscape(s: string): Option<char>
    requires |s| == 4
  {
    match (HexValue(s[0]), HexValue(s[1]), HexValue(s[2]), HexValue(s[3]))
    case (Some(a), Some(b), Some(c), Some(d)) =>
      var n := ((a * 16 + b) * 16 + c) * 16 + d;
      if n < 0xD800 || 0xE000 <= n < 0x1_0000 then Some(n as char) else None
    case _ => None
  }

  // The character an escape stands for, and its length after the backslash.
  function Unescape(s: string): (r: Option<(char, nat)>)
    ensures r.Some? ==> 1 <= r.value.1 <= |s|
  {
    if s == [] then None
    else if s[0] == '"' || s[0] == '\\' then Some((s[0], 1))
    else if s[0] == 'n' then Some(('\n', 1))
    else if s[0] == 'r' then Some(('\r', 1))
    else if s[0] == 't' then Some(('\t', 1))
    else if s[0] == 'b' then Some((8 as char, 1))
    else if s[0] == 'f' then Some((12 as char, 1))
    else if s[0] == 'u' && |s| >= 5 && UnicodeEscape(s[1..5]).Some? then Some((UnicodeEscape(s[1..5]).value, 5))
    else None
  }

  predicate Bare(c: char) { c == '\t' || (c >= ' ' && c != 0x7F as char) }

  // The value up to the closing quote, and the text after it. None when the string is malformed.
  function ReadString(s: string): Option<(string, string)>
    decreases |s|
  {
    if s == [] then None
    else if s[0] == '"' then Some(("", s[1..]))
    else if s[0] == '\\' then
      match Unescape(s[1..])
      case None => None
      case Some((c, n)) =>
        match ReadString(s[1 + n..])
        case None => None
        case Some((v, rest)) => Some(([c] + v, rest))
    else if !Bare(s[0]) then None
    else
      match ReadString(s[1..])
      case None => None
      case Some((v, rest)) => Some(([s[0]] + v, rest))
  }

  // What reading a string yields when its first character was c.
  function Prepend(c: char, tail: Option<(string, string)>): Option<(string, string)> {
    match tail
    case None => None
    case Some((v, rest)) => Some(([c] + v, rest))
  }

  lemma EscapeReads(code: string, c: char, tail: string)
    requires Unescape(code + tail) == Some((c, |code|))
    ensures ReadString(['\\'] + code + tail) == Prepend(c, ReadString(tail))
  {
    var s := ['\\'] + code + tail;
    assert s[1..] == code + tail;
    assert s[1 + |code|..] == tail;
  }

  lemma ShortEscape(code: char, c: char, tail: string)
    requires (code, c) in {('"', '"'), ('\\', '\\'), ('n', '\n'), ('r', '\r'), ('t', '\t'), ('b', 8 as char), ('f', 12 as char)}
    ensures Unescape([code] + tail) == Some((c, 1))
  {}

  lemma ControlEscape(c: char, tail: string)
    requires c < ' '
    ensures Unescape(['u', '0', '0', HexDigit(c as int / 16), HexDigit(c as int % 16)] + tail) == Some((c, 5))
  {
    var digits := ['0', '0', HexDigit(c as int / 16), HexDigit(c as int % 16)];
    var s := ['u', '0', '0', HexDigit(c as int / 16), HexDigit(c as int % 16)] + tail;
    assert s[1..5] == digits;
    HexPair(c as int);
  }

  lemma HexPair(n: nat)
    requires n < 32
    ensures HexValue(HexDigit(n / 16)) == Some(n / 16) && HexValue(HexDigit(n % 16)) == Some(n % 16)
    ensures n / 16 * 16 + n % 16 == n
  {}

  // The code after the backslash of an escaped character.
  function ShortCode(c: char): char {
    if c == '\n' then 'n' else if c == '\r' then 'r' else if c == '\t' then 't'
    else if c == 8 as char then 'b' else if c == 12 as char then 'f' else c
  }

  lemma ShortCharReads(c: char, tail: string)
    requires c == '"' || c == '\\' || ShortCode(c) != c
    ensures ReadString(EscapeChar(c) + tail) == Prepend(c, ReadString(tail))
  {
    ShortEscape(ShortCode(c), c, tail);
    EscapeReads([ShortCode(c)], c, tail);
    assert EscapeChar(c) == ['\\'] + [ShortCode(c)];
  }

  lemma ControlCharReads(c: char, tail: string)
    requires c < ' ' && ShortCode(c) == c
    ensures ReadString(EscapeChar(c) + tail) == Prepend(c, ReadString(tail))
  {
    var code := ['u', '0', '0', HexDigit(c as int / 16), HexDigit(c as int % 16)];
    ControlEscape(c, tail);
    EscapeReads(code, c, tail);
    assert EscapeChar(c) == ['\\'] + code;
  }

  lemma BareCharReads(c: char, tail: string)
    requires Bare(c) && c != '"' && c != '\\'
    ensures ReadString([c] + tail) == Prepend(c, ReadString(tail))
  {
    assert ([c] + tail)[1..] == tail;
  }

  lemma EscapedCharReads(c: char, tail: string)
    requires c != 0x7F as char
    ensures ReadString(EscapeChar(c) + tail) == Prepend(c, ReadString(tail))
  {
    if c == '"' || c == '\\' || ShortCode(c) != c {
      ShortCharReads(c, tail);
    } else if c < ' ' {
      ControlCharReads(c, tail);
    } else {
      BareCharReads(c, tail);
    }
  }

  lemma {:induction false} EscapedValueReads(v: string, rest: string)
    ensures ReadString(Escape(v) + (['"'] + rest)) == Some((v, rest)) <==> 0x7F as char !in v
  {
    var tail := ['"'] + rest;
    if v == [] {
      assert Escape(v) + tail == tail;
      assert tail[1..] == rest;
    } else {
      EscapedValueReads(v[1..], rest);
      JoinAssociates(EscapeChar(v[0]), Escape(v[1..]), tail);
      assert v == [v[0]] + v[1..];
      if v[0] != 0x7F as char {
        EscapedCharReads(v[0], Escape(v[1..]) + tail);
      } else {
        DelIsRefused(Escape(v[1..]) + tail);
      }
    }
  }

  lemma DelIsRefused(tail: string)
    ensures ReadString(EscapeChar(0x7F as char) + tail) == None
  {}

  // Main result: reading a printed value gives the value back and stops at its own closing quote,
  // exactly when the value has no DEL character.
  lemma TomlRoundTrip(v: string, rest: string)
    ensures ReadString(Escape(v) + ['"'] + rest) == Some((v, rest)) <==> 0x7F as char !in v
  {
    EscapedValueReads(v, rest);
    JoinAssociates(Escape(v), ['"'], rest);
  }

  // A value that a strict reader refuses.
  lemma DelIsUnreadable()
    ensures ReadString(Escape([0x7F as char]) + ['"'] + "") == None
  {
    var v := [0x7F as char];
    assert v[1..] == [] && Escape(v) == EscapeChar(v[0]) + [];
    assert Escape(v) + ['"'] + "" == EscapeChar(v[0]) + ['"'];
    DelIsRefused(['"']);
  }

  lemma {:induction false} EscapeOneLine(v: string)
    ensures '\n' !in Escape(v)
  {
    if v != [] {
      EscapeOneLine(v[1..]);
      assert '\n' !in EscapeChar(v[0]);
    }
  }

  // `" ".join(value.split())`.
  function OneLine(s: string): string {
    if s == [] then []
    else if IsSpace(s[0]) then OneLine(s[1..])
    else
      var w := WordLength(s);
      var rest := OneLine(s[w..]);
      s[..w] + if rest == [] then [] else [' '] + rest
  }

  function WordLength(s: string): (n: nat)
    requires s != [] && !IsSpace(s[0])
    ensures 1 <= n <= |s| && forall i :: 0 <= i < n ==> !IsSpace(s[i])
  {
    if |s| > 1 && !IsSpace(s[1]) then 1 + WordLength(s[1..]) else 1
  }

  lemma {:induction false} OneLineHasNoNewline(s: string)
    ensures '\n' !in OneLine(s)
    decreases |s|
  {
    if s != [] {
      if IsSpace(s[0]) {
        OneLineHasNoNewline(s[1..]);
      } else {
        OneLineHasNoNewline(s[WordLength(s)..]);
      }
    }
  }

  // ----- The generated file

  // The realm's fields and the settings the generator reads; `domain` is the dotted parent domain.
  datatype Realm = Realm(
    slug: string, port: nat, issuer: string, clientId: string, clientSecret: string,
    redirect: string, cookieSecret: string, scopes: string,
    docker: bool, skipTlsVerify: bool, domain: Option<string>)

  function HttpAddress(r: Realm): string {
    if r.docker then "0.0.0.0:4180" else "127.0.0.1:" + Decimal(r.port)
  }

  // Outside a container network every realm listens on loopback, on its own port: equal addresses, equal ports.
  lemma AddressTellsPort(r: Realm, other: Realm)
    requires !r.docker && !other.docker
    ensures HttpAddress(r) == HttpAddress(other) <==> r.port == other.port
    ensures "127.0.0.1:" <= HttpAddress(r) && HttpAddress(r)[10..] == Decimal(r.port)
  {
    DecimalRoundTrip(r.port);
    DecimalRoundTrip(other.port);
    assert HttpAddress(r)[10..] == Decimal(r.port) && HttpAddress(other)[10..] == Decimal(other.port);
  }

  function Assign(key: string, value: string): string { key + " = " + TomlStr(value) }

  function Banner(slug: string): string {
    "# Generated for realm: " + OneLine(slug) + " — source of truth: DB "
    + "RealmConfig (do not edit)"
  }

  function ListenLines(r: Realm): seq<string> {
    [ Banner(r.slug),
      Assign("http_address", HttpAddress(r)),
      "upstreams = [ \"file:///dev/null\" ]",
      "reverse_proxy = true",
      "skip_provider_button = true" ]
  }

  function ClientLines(r: Realm): seq<string> {
    [ "provider = \"oidc\"",
      Assign("oidc_issuer_url", r.issuer),
      Assign("client_id", r.clientId),
      Assign("client_secret", r.clientSecret),
      Assign("redirect_url", r.redirect),
      Assign("cookie_secret", r.cookieSecret) ]
  }

  function ScopeLines(r: Realm): seq<string> {
    [ "code_challenge_method = \"S256\"",
      Assign("scope", r.scopes),
      "email_domains = [\"*\"]",
      "insecure_oidc_allow_unverified_email = true" ]
  }

  const TLS_NOTE := "# TEMP: skip TLS verify to IdP — set "
  const TLS_SWITCH := "OAUTH2_SSL_INSECURE_SKIP_VERIFY=false"
  const TLS_UNTIL := " once ACME covers IdP FQDN"

  const TLS_LINES := [
    TLS_NOTE + TLS_SWITCH + TLS_UNTIL,
    "ssl_insecure_skip_verify = true" ]

  const COOKIE_LINES := [
    "cookie_secure = true",
    "cookie_httponly = true",
    "cookie_samesite = \"lax\"",
    "cookie_expire = \"12h\"",
    "cookie_refresh = \"1h\"" ]

  function DomainLines(r: Realm): seq<string> {
    if r.domain.None? then []
    else [ "cookie_domains = [ " + TomlStr(r.domain.value) + " ]",
           "whitelist_domains = [ " + TomlStr(r.domain.value) + " ]" ]
  }

  const TAIL_LINES := [
    "set_xauthrequest = true",
    "user_id_claim = \"sub\"",
    "pass_access_token = false",
    "pass_authorization_header = true",
    "" ]

  function Lines(r: Realm): seq<string> {
    ListenLines(r) + ClientLines(r) + ScopeLines(r) + (if r.skipTlsVerify then TLS_LINES else [])
    + COOKIE_LINES + DomainLines(r) + TAIL_LINES
  }

  // The generator appends to a list of lines and joins it.
  method GenerateConfig(r: Realm) returns (text: string)
    ensures text == JoinLines(Lines(r))
  {
    var lines := ListenLines(r) + ClientLines(r) + ScopeLines(r);
    ghost var start := lines;
    if r.skipTlsVerify {
      lines := lines + TLS_LINES;
    }
    assert lines == start + if r.skipTlsVerify then TLS_LINES else [];
    lines := lines + COOKIE_LINES;
    ghost var before := lines;
    if r.domain.Some? {
      lines := lines + ["cookie_domains = [ " + TomlStr(r.domain.value) + " ]"];
      lines := lines + ["whitelist_domains = [ " + TomlStr(r.domain.value) + " ]"];
      TwoMore(before, "cookie_domains = [ " + TomlStr(r.domain.value) + " ]", "whitelist_domains = [ " + TomlStr(r.domain.value) + " ]");
    }
    assert lines == before + DomainLines(r);
    lines := lines + TAIL_LINES;
    text := JoinLines(lines);
  }

  lemma TwoMore(lines: seq<string>, a: string, b: string)
    ensures lines + [a] + [b] == lines + [a, b]
  {}

  function JoinLines(lines: seq<string>): string {
    if lines == [] then [] else if |lines| == 1 then lines[0] else lines[0] + ['\n'] + JoinLines(lines[1..])
  }

  // ----- The reader: three multi-line patterns

  datatype Pattern = Duration | Flag | SameSite

  // The whitespace class of the pattern engine.
  predicate Blank(c: char) { c == ' ' || c == '\t' || c == '\n' || c == '\r' || c == 12 as char }

  function SkipBlank(s: string): (r: string)
    ensures |r| <= |s|
    ensures r == [] || !Blank(r[0])
  {
    if s != [] && Blank(s[0]) then SkipBlank(s[1..]) else s
  }

  // Equality with a literal character; when case is ignored this includes the long s and the Kelvin sign.
  predicate SameChar(c: char, lit: char, fold: bool) {
    || c == lit
    || (fold && (LowerChar(c) == LowerChar(lit)
                 || (LowerChar(lit) == 's' && c == 0x17F as char)
                 || (LowerChar(lit) == 'k' && c == 0x212A as char)))
  }

  predicate StartsWith(s: string, lit: string, fold: bool) {
    |lit| <= |s| && forall i :: 0 <= i < |lit| ==> SameChar(s[i], lit[i], fold)
  }

  function KeysOf(p: Pattern): seq<string> {
    match p
    case Duration => ["cookie_expire", "cookie_refresh"]
    case Flag => ["cookie_secure", "cookie_httponly"]
    case SameSite => ["cookie_samesite", "cookie_samesite"]
  }

  predicate Folds(p: Pattern) { !p.Duration? }

  // The length of the key at the start of the text, 0 when there is none.
  function KeyLength(s: string, p: Pattern): (n: nat)
    ensures n <= |s| && (n == 0 || n > 7)
  {
    if StartsWith(s, KeysOf(p)[0], Folds(p)) then |KeysOf(p)[0]|
    else if StartsWith(s, KeysOf(p)[1], Folds(p)) then |KeysOf(p)[1]|
    else 0
  }

  function QuoteAt(s: string): (n: nat)
    ensures n <= |s|
  {
    if s == [] || s[0] == '"' then 0 else 1 + QuoteAt(s[1..])
  }

  // The value after the equals sign: its text and its total length, 0 when it does not match.
  function ValueAt(s: string, p: Pattern): (r: (string, nat))
    ensures r.1 <= |s|
  {
    if p.Flag? then
      if StartsWith(s, "true", true) then (s[..4], 4)
      else if StartsWith(s, "false", true) then (s[..5], 5)
      else ("", 0)
    else if s == [] || s[0] != '"' then ("", 0)
    else
      var n := QuoteAt(s[1..]);
      if n == 0 || n == |s[1..]| then ("", 0) else (s[1..][..n], n + 2)
  }

  // Trailing blanks up to an end of line: the longest run that ends there.
  function TailLength(s: string): (r: Option<nat>)
    ensures r.Some? ==> r.value <= |s|
  {
    if s == [] then Some(0)
    else if Blank(s[0]) && TailLength(s[1..]).Some? then Some(1 + TailLength(s[1..]).value)
    else if s[0] == '\n' then Some(0)
    else None
  }

  datatype Match = Match(key: string, value: string, rest: string, lineStart: bool)

  // The setting a matched key names: its prefix may be in any case, the rest is taken as it stands.
  function KeyName(key: string): string
    requires |key| >= 7
  {
    "cookie_" + key[7..]
  }

  // The key at the start of the text and what follows its equals sign.
  function KeyAndRest(s: string, p: Pattern): (r: Option<(string, string)>)
    ensures r.Some? ==> |r.value.1| < |s|
  {
    var a := SkipBlank(s);
    var k := KeyLength(a, p);
    var b := SkipBlank(a[k..]);
    if k == 0 || b == [] || b[0] != '=' then None else Some((KeyName(a[..k]), SkipBlank(b[1..])))
  }

  // The value at the start of the text, closed by an end of line.
  function ValueAndRest(key: string, c: string, p: Pattern): (r: Option<Match>)
    ensures r.Some? ==> |r.value.rest| <= |c|
  {
    var v := ValueAt(c, p);
    var d := c[v.1..];
    if v.1 == 0 || TailLength(d).None? then None
    else
      var n := TailLength(d).value;
      Some(Match(key, v.0, d[n..], n > 0 && d[n - 1] == '\n'))
  }

  // A match that begins exactly here, here being the start of a line.
  function MatchHere(s: string, p: Pattern): (r: Option<Match>)
    ensures r.Some? ==> |r.value.rest| < |s|
  {
    match KeyAndRest(s, p)
    case None => None
    case Some((key, rest)) => ValueAndRest(key, rest, p)
  }

  // All matches, left to right; `lineStart` says whether a line begins here.
  function Scan(s: string, lineStart: bool, p: Pattern): seq<Match>
    decreases |s|
  {
    var here := if lineStart then MatchHere(s, p) else None;
    if here.Some? then [here.value] + Scan(here.value.rest, here.value.lineStart, p)
    else if s == [] then []
    else Scan(s[1..], s[0] == '\n', p)
  }

  type Settings = map<string, Option<string>>

  const NO_SETTINGS: Settings := map[
    "cookie_expire" := None, "cookie_refresh" := None, "cookie_secure" := None,
    "cookie_httponly" := None, "cookie_samesite" := None ]

  function Assigned(found: Settings, matches: seq<Match>, lower: bool): Settings {
    if matches == [] then found
    else
      var last := matches[|matches| - 1];
      Assigned(found, matches[..|matches| - 1], lower)[
        last.key := Some(if lower then Lower(last.value) else last.value)]
  }

  function ReadSettings(text: string): Settings {
    var found := Assigned(Assigned(NO_SETTINGS, Scan(text, true, Duration), false), Scan(text, true, Flag), true);
    var sites := Scan(text, true, SameSite);
    if sites == [] then found else found["cookie_samesite" := Some(Lower(sites[0].value))]
  }

  method ParseCookieSettings(text: string) returns (found: Settings)
    ensures found == ReadSettings(text)
  {
    found := NO_SETTINGS;
    var matches := Scan(text, true, Duration);
    for i := 0 to |matches|
      invariant found == Assigned(NO_SETTINGS, matches[..i], false)
    {
      found := found[matches[i].key := Some(matches[i].value)];
      assert matches[..i + 1][..i] == matches[..i];
    }
    assert matches[..|matches|] == matches;
    ghost var durations := found;
    matches := Scan(text, true, Flag);
    for i := 0 to |matches|
      invariant found == Assigned(durations, matches[..i], true)
    {
      found := found[matches[i].key := Some(Lower(matches[i].value))];
      assert matches[..i + 1][..i] == matches[..i];
    }
    assert matches[..|matches|] == matches;
    var sites := Scan(text, true, SameSite);
    if sites != [] {
      found := found["cookie_samesite" := Some(Lower(sites[0].value))];
    }
  }

  function Setting(found: Settings, key: string): string {
    if key in found && found[key].Some? then Lower(found[key].value) else ""
  }

  predicate CookieFlagsConform(found: Settings) {
    && Setting(found, "cookie_secure") == "true"
    && Setting(found, "cookie_httponly") == "true"
    && Setting(found, "cookie_samesite") == "lax"
  }

  // The three flags conform exactly with these values, in any case; another value, or none, does not.
  lemma ConformExactly(found: Settings)
    ensures CookieFlagsConform(found)
       <==> (&& "cookie_secure" in found && found["cookie_secure"].Some? && Lower(found["cookie_secure"].value) == "true"
             && "cookie_httponly" in found && found["cookie_httponly"].Some? && Lower(found["cookie_httponly"].value) == "true"
             && "cookie_samesite" in found && found["cookie_samesite"].Some? && Lower(found["cookie_samesite"].value) == "lax")
  {}

  // ----- No value ends its line

  ghost predicate IsLine(s: string) { '\n' !in s }

  lemma AssignIsLine(key: string, value: string)
    requires IsLine(key)
    ensures IsLine(Assign(key, value))
  {
    EscapeOneLine(value);
  }

  ghost predicate AllLines(lines: seq<string>) { forall i :: 0 <= i < |lines| ==> IsLine(lines[i]) }

  lemma ListenLinesAreLines(r: Realm)
    ensures AllLines(ListenLines(r))
  {
    BannerIsLine(r.slug);
    DecimalNotBlank(r.port);
    AssignIsLine("http_address", HttpAddress(r));
  }

  lemma BannerIsLine(slug: string)
    ensures IsLine(Banner(slug))
  {
    OneLineHasNoNewline(slug);
  }

  lemma ClientLinesAreLines(r: Realm)
    ensures AllLines(ClientLines(r))
  {
    AssignIsLine("oidc_issuer_url", r.issuer);
    AssignIsLine("client_id", r.clientId);
    AssignIsLine("client_secret", r.clientSecret);
    AssignIsLine("redirect_url", r.redirect);
    AssignIsLine("cookie_secret", r.cookieSecret);
  }

  lemma ScopeLinesAreLines(r: Realm)
    ensures AllLines(ScopeLines(r))
  {
    AssignIsLine("scope", r.scopes);
  }

  lemma DomainLinesAreLines(r: Realm)
    ensures AllLines(DomainLines(r))
  {
    if r.domain.Some? {
      EscapeOneLine(r.domain.value);
    }
  }

  lemma LinesJoin(a: string, b: string)
    requires IsLine(a) && IsLine(b)
    ensures IsLine(a + b)
  {}

  lemma TlsLinesAreLines()
    ensures AllLines(TLS_LINES)
  {
    TlsNoteIsLine();
    TlsSwitchIsLine();
    LinesJoin(TLS_NOTE, TLS_SWITCH);
    LinesJoin(TLS_NOTE + TLS_SWITCH, TLS_UNTIL);
  }

  lemma TlsNoteIsLine()
    ensures IsLine(TLS_NOTE)
  {}

  lemma TlsSwitchIsLine()
    ensures IsLine(TLS_SWITCH)
  {}

  lemma CookieLinesAreLines()
    ensures AllLines(COOKIE_LINES)
  {}

  lemma TailLinesAreLines()
    ensures AllLines(TAIL_LINES)
  {}

  lemma LinesAreLines(r: Realm)
    ensures AllLines(Lines(r))
  {
    ListenLinesAreLines(r);
    ClientLinesAreLines(r);
    ScopeLinesAreLines(r);
    DomainLinesAreLines(r);
    TlsLinesAreLines();
    CookieLinesAreLines();
    TailLinesAreLines();
    AllLinesConcat(ListenLines(r), ClientLines(r));
    AllLinesConcat(ListenLines(r) + ClientLines(r), ScopeLines(r));
    var tls := if r.skipTlsVerify then TLS_LINES else [];
    AllLinesConcat(ListenLines(r) + ClientLines(r) + ScopeLines(r), tls);
    AllLinesConcat(ListenLines(r) + ClientLines(r) + ScopeLines(r) + tls, COOKIE_LINES);
    AllLinesConcat(ListenLines(r) + ClientLines(r) + ScopeLines(r) + tls + COOKIE_LINES, DomainLines(r));
    AllLinesConcat(ListenLines(r) + ClientLines(r) + ScopeLines(r) + tls + COOKIE_LINES + DomainLines(r), TAIL_LINES);
  }

  lemma AllLinesConcat(a: seq<string>, b: seq<string>)
    requires AllLines(a) && AllLines(b)
    ensures AllLines(a + b)
  {}

  lemma {:induction false} SplitJoinedLines(lines: seq<string>)
    requires lines != [] && AllLines(lines)
    ensures Split(JoinLines(lines), '\n') == lines
  {
    if |lines| == 1 {
      SplitOne(lines[0], '\n');
      assert lines == [lines[0]];
    } else {
      SplitJoinedLines(lines[1..]);
      SplitCons(lines[0], '\n', JoinLines(lines[1..]));
      assert lines == [lines[0]] + lines[1..];
    }
  }

  // Main result: whatever the realm's fields are, the file consists of exactly the intended lines.
  lemma FieldsCannotAddLines(r: Realm)
    ensures Split(JoinLines(Lines(r)), '\n') == Lines(r)
  {
    LinesAreLines(r);
    SplitJoinedLines(Lines(r));
  }

  // Reading a line that assigns a quoted value.
  function ReadAssignment(line: string, key: string): Option<string> {
    var open := key + " = \"";
    if open <= line then
      match ReadString(line[|open|..])
      case Some((v, rest)) => if rest == [] then Some(v) else None
      case None => None
    else None
  }

  // Main result: each quoted field, read back from its line, is the field itself, and nothing of the
  // line is left over; a DEL character is the only thing the strict reader rejects.
  lemma FieldsReadBack(key: string, value: string)
    ensures ReadAssignment(Assign(key, value), key) == Some(value) <==> 0x7F as char !in value
  {
    var open, line := key + " = \"", Assign(key, value);
    assert line == open + (Escape(value) + ['"'] + []);
    assert line[|open|..] == Escape(value) + ['"'] + [];
    TomlRoundTrip(value, []);
  }

  // ----- What the scanner finds in the generated file

  // A line on which the pattern cannot match, whatever follows.
  ghost predicate Silent(line: string, p: Pattern) {
    && IsLine(line) && line != [] && !Blank(line[0])
    && Mismatch(line, KeysOf(p)[0], Folds(p)) && Mismatch(line, KeysOf(p)[1], Folds(p))
  }

  ghost predicate Mismatch(line: string, key: string, fold: bool) {
    exists i :: 0 <= i < |line| && i < |key| && !SameChar(line[i], key[i], fold)
  }

  lemma {:induction false} ScanInsideLine(line: string, rest: string, p: Pattern)
    requires IsLine(line)
    ensures Scan(line + ['\n'] + rest, false, p) == Scan(rest, true, p)
  {
    var s := line + ['\n'] + rest;
    if line == [] {
      assert s[1..] == rest;
    } else {
      ScanInsideLine(line[1..], rest, p);
      assert s[1..] == line[1..] + ['\n'] + rest;
    }
  }

  lemma ScanSilent(line: string, rest: string, p: Pattern)
    requires Silent(line, p)
    ensures Scan(line + ['\n'] + rest, true, p) == Scan(rest, true, p)
  {
    var s := line + ['\n'] + rest;
    assert forall i :: 0 <= i < |line| ==> s[i] == line[i];
    assert SkipBlank(s) == s;
    assert KeyLength(s, p) == 0;
    assert MatchHere(s, p).None?;
    assert s[1..] == line[1..] + ['\n'] + rest;
    ScanInsideLine(line[1..], rest, p);
  }

  ghost predicate AllSilent(lines: seq<string>, p: Pattern) {
    forall i :: 0 <= i < |lines| ==> Silent(lines[i], p)
  }

  lemma JoinCons(line: string, tail: seq<string>)
    requires tail != []
    ensures JoinLines([line] + tail) == line + ['\n'] + JoinLines(tail)
  {
    assert ([line] + tail)[1..] == tail;
  }

  lemma {:induction false} ScanSilentBlock(block: seq<string>, rest: seq<string>, p: Pattern)
    requires AllSilent(block, p) && rest != []
    ensures Scan(JoinLines(block + rest), true, p) == Scan(JoinLines(rest), true, p)
  {
    if block == [] {
      assert block + rest == rest;
    } else {
      var all, tail := block + rest, block[1..] + rest;
      assert all == [block[0]] + tail;
      var text := JoinLines(all);
      assert text == block[0] + ['\n'] + JoinLines(tail) by { JoinCons(block[0], tail); }
      assert Silent(block[0], p);
      ScanSilentStep(text, block[0], JoinLines(tail), p);
      assert AllSilent(block[1..], p) by {
        assert forall i :: 0 <= i < |block[1..]| ==> block[1..][i] == block[i + 1];
      }
      ScanSilentBlock(block[1..], rest, p);
    }
  }

  lemma ScanSilentStep(text: string, line: string, rest: string, p: Pattern)
    requires Silent(line, p) && text == line + ['\n'] + rest
    ensures Scan(text, true, p) == Scan(rest, true, p)
  {
    ScanSilent(line, rest, p);
  }

  lemma SkipOne(c: char, t: string)
    ensures ([c] + t)[0] == c && ([c] + t)[1..] == t
    ensures SkipBlank([c] + t) == if Blank(c) then SkipBlank(t) else [c] + t
  {
    assert ([c] + t)[1..] == t;
  }

  lemma SkipNothing(t: string)
    requires t != [] && !Blank(t[0])
    ensures SkipBlank(t) == t
  {}

  lemma KeyHit(key: string, after: string, p: Pattern)
    requires |key| > 7 && !Blank(key[0]) && after != [] && !Blank(after[0])
    requires KeyLength(key + " = " + after, p) == |key| && KeyName(key) == key
    ensures KeyAndRest(key + " = " + after, p) == Some((key, after))
  {
    var s := key + " = " + after;
    var value := [' '] + after;
    var equals := ['='] + value;
    SkipNothing(s);
    assert s[..|key|] == key;
    assert s[|key|..] == [' '] + equals;
    SkipOne(' ', equals);
    SkipOne('=', value);
    SkipOne(' ', after);
    SkipNothing(after);
  }

  lemma ValueHit(key: string, value: string, rest: string, p: Pattern)
    requires value != [] && rest != [] && !Blank(rest[0])
    requires ValueAt(value + ['\n'] + rest, p).1 == |value|
    ensures ValueAndRest(key, value + ['\n'] + rest, p)
         == Some(Match(key, ValueAt(value + ['\n'] + rest, p).0, ['\n'] + rest, false))
  {
    var tail := ['\n'] + rest;
    assert (value + ['\n'] + rest)[|value|..] == tail;
    assert tail[1..] == rest && tail[0..] == tail;
    assert TailLength(rest).None?;
  }

  // A line `key = value` that the pattern recognises, with a non-blank line after it.
  lemma ScanHit(text: string, key: string, value: string, rest: string, p: Pattern)
    requires text == key + " = " + (value + ['\n'] + rest)
    requires |key| > 7 && !Blank(key[0]) && value != [] && !Blank(value[0])
    requires rest != [] && !Blank(rest[0])
    requires KeyLength(text, p) == |key| && KeyName(key) == key
    requires ValueAt(value + ['\n'] + rest, p).1 == |value|
    ensures Scan(text, true, p)
         == [Match(key, ValueAt(value + ['\n'] + rest, p).0, ['\n'] + rest, false)] + Scan(rest, true, p)
  {
    var after := value + ['\n'] + rest;
    KeyHit(key, after, p);
    ValueHit(key, value, rest, p);
    var m := Match(key, ValueAt(after, p).0, ['\n'] + rest, false);
    assert MatchHere(text, p) == Some(m);
    ScanFound(text, m, p);
    ScanInsideLine([], rest, p);
    assert [] + ['\n'] + rest == ['\n'] + rest;
  }

  lemma ScanFound(text: string, m: Match, p: Pattern)
    requires MatchHere(text, p) == Some(m)
    ensures Scan(text, true, p) == [m] + Scan(m.rest, m.lineStart, p)
  {}

  lemma KeyAt(s: string, p: Pattern, first: bool, i: nat)
    requires StartsWith(s, KeysOf(p)[if first then 0 else 1], Folds(p))
    requires first || (i < |s| && i < |KeysOf(p)[0]| && !SameChar(s[i], KeysOf(p)[0][i], Folds(p)))
    ensures KeyLength(s, p) == |KeysOf(p)[if first then 0 else 1]|
  {}

  lemma QuotedValue(v: string, rest: string, p: Pattern)
    requires !p.Flag? && v != [] && '"' !in v
    ensures ValueAt("\"" + v + "\"" + ['\n'] + rest, p) == (v, |v| + 2)
  {
    var s := "\"" + v + "\"" + ['\n'] + rest;
    var t := ['"', '\n'] + rest;
    assert s[1..] == v + t;
    QuoteAfter(v, t);
    assert s[1..][..|v|] == v;
  }

  lemma {:induction false} QuoteAfter(v: string, t: string)
    requires '"' !in v && t != [] && t[0] == '"'
    ensures QuoteAt(v + t) == |v|
  {
    if v == [] {
      assert v + t == t;
    } else {
      QuoteAfter(v[1..], t);
      assert (v + t)[1..] == v[1..] + t;
    }
  }

  lemma TrueValue(rest: string)
    ensures ValueAt("true" + ['\n'] + rest, Flag) == ("true", 4)
  {
    assert ("true" + ['\n'] + rest)[..4] == "true";
  }

  // A line that differs from `cookie_` at position i is silent for every pattern.
  lemma NotACookieLine(line: string, i: nat)
    requires IsLine(line) && i < |line| && i < 7 && !Blank(line[0])
    requires !SameChar(line[i], "cookie_"[i], true)
    ensures forall p :: Silent(line, p)
  {
    forall p
      ensures Silent(line, p)
    {
      assert forall k :: 0 <= k < 2 ==> KeysOf(p)[k][i] == "cookie_"[i];
    }
  }

  // A line that starts with the given text, which differs from both keys of every pattern.
  lemma NotThatCookieLine(line: string, start: string, p: Pattern, i: nat, j: nat)
    requires IsLine(line) && start <= line && i < |start| && j < |start| && !Blank(start[0])
    requires i < |KeysOf(p)[0]| && !SameChar(start[i], KeysOf(p)[0][i], Folds(p))
    requires j < |KeysOf(p)[1]| && !SameChar(start[j], KeysOf(p)[1][j], Folds(p))
    ensures Silent(line, p)
  {
    assert line[i] == start[i] && line[j] == start[j];
  }

  // ----- The five cookie lines

  // One cookie line: its own pattern finds it, the two others pass over it.
  ghost predicate CookieLineScans(line: string, own: Pattern, key: string, value: string) {
    forall rest: string, p: Pattern | rest != [] && !Blank(rest[0]) ::
      Scan(line + ['\n'] + rest, true, p)
        == (if p == own then [Match(key, value, ['\n'] + rest, false)] else []) + Scan(rest, true, p)
  }

  lemma SilentElsewhere(line: string, start: string, rest: string, p: Pattern, i: nat, j: nat)
    requires IsLine(line) && start <= line && i < |start| && j < |start| && !Blank(start[0])
    requires i < |KeysOf(p)[0]| && !SameChar(start[i], KeysOf(p)[0][i], Folds(p))
    requires j < |KeysOf(p)[1]| && !SameChar(start[j], KeysOf(p)[1][j], Folds(p))
    ensures Scan(line + ['\n'] + rest, true, p) == [] + Scan(rest, true, p)
  {
    NotThatCookieLine(line, start, p, i, j);
    ScanSilent(line, rest, p);
  }

  lemma SecureLine()
    ensures CookieLineScans(COOKIE_LINES[0], Flag, "cookie_secure", "true")
  {
    var line := COOKIE_LINES[0];
    forall rest: string, p: Pattern | rest != [] && !Blank(rest[0])
      ensures Scan(line + ['\n'] + rest, true, p)
        == (if p == Flag then [Match("cookie_secure", "true", ['\n'] + rest, false)] else []) + Scan(rest, true, p)
    {
      match p
      case Duration => SilentElsewhere(line, "cookie_secure", rest, p, 7, 7);
      case SameSite => SilentElsewhere(line, "cookie_secure", rest, p, 8, 8);
      case Flag =>
        var text := line + ['\n'] + rest;
        assert text == "cookie_secure" + " = " + ("true" + ['\n'] + rest);
        assert text[..13] == "cookie_secure";
        TrueValue(rest);
        ScanHit(text, "cookie_secure", "true", rest, p);
    }
  }

  lemma HttpOnlyLine()
    ensures CookieLineScans(COOKIE_LINES[1], Flag, "cookie_httponly", "true")
  {
    var line := COOKIE_LINES[1];
    forall rest: string, p: Pattern | rest != [] && !Blank(rest[0])
      ensures Scan(line + ['\n'] + rest, true, p)
        == (if p == Flag then [Match("cookie_httponly", "true", ['\n'] + rest, false)] else []) + Scan(rest, true, p)
    {
      match p
      case Duration => SilentElsewhere(line, "cookie_httponly", rest, p, 7, 7);
      case SameSite => SilentElsewhere(line, "cookie_httponly", rest, p, 7, 7);
      case Flag =>
        var text := line + ['\n'] + rest;
        assert text == "cookie_httponly" + " = " + ("true" + ['\n'] + rest);
        assert text[..15] == "cookie_httponly";
        assert !SameChar(text[7], KeysOf(Flag)[0][7], true);
        KeyAt(text, p, false, 7);
        TrueValue(rest);
        ScanHit(text, "cookie_httponly", "true", rest, p);
    }
  }

  lemma SameSiteLine()
    ensures CookieLineScans(COOKIE_LINES[2], SameSite, "cookie_samesite", "lax")
  {
    var line := COOKIE_LINES[2];
    forall rest: string, p: Pattern | rest != [] && !Blank(rest[0])
      ensures Scan(line + ['\n'] + rest, true, p)
        == (if p == SameSite then [Match("cookie_samesite", "lax", ['\n'] + rest, false)] else []) + Scan(rest, true, p)
    {
      match p
      case Duration => SilentElsewhere(line, "cookie_samesite", rest, p, 7, 7);
      case Flag => SilentElsewhere(line, "cookie_samesite", rest, p, 8, 7);
      case SameSite =>
        var text := line + ['\n'] + rest;
        var value := "\"" + "lax" + "\"";
        assert text == "cookie_samesite" + " = " + (value + ['\n'] + rest);
        assert text[..15] == "cookie_samesite";
        QuotedValue("lax", rest, p);
        ScanHit(text, "cookie_samesite", value, rest, p);
    }
  }

  lemma ExpireLine()
    ensures CookieLineScans(COOKIE_LINES[3], Duration, "cookie_expire", "12h")
  {
    var line := COOKIE_LINES[3];
    forall rest: string, p: Pattern | rest != [] && !Blank(rest[0])
      ensures Scan(line + ['\n'] + rest, true, p)
        == (if p == Duration then [Match("cookie_expire", "12h", ['\n'] + rest, false)] else []) + Scan(rest, true, p)
    {
      match p
      case Flag => SilentElsewhere(line, "cookie_expire", rest, p, 7, 7);
      case SameSite => SilentElsewhere(line, "cookie_expire", rest, p, 7, 7);
      case Duration =>
        var text := line + ['\n'] + rest;
        var value := "\"" + "12h" + "\"";
        assert text == "cookie_expire" + " = " + (value + ['\n'] + rest);
        assert text[..13] == "cookie_expire";
        QuotedValue("12h", rest, p);
        ScanHit(text, "cookie_expire", value, rest, p);
    }
  }

  lemma RefreshLine()
    ensures CookieLineScans(COOKIE_LINES[4], Duration, "cookie_refresh", "1h")
  {
    var line := COOKIE_LINES[4];
    forall rest: string, p: Pattern | rest != [] && !Blank(rest[0])
      ensures Scan(line + ['\n'] + rest, true, p)
        == (if p == Duration then [Match("cookie_refresh", "1h", ['\n'] + rest, false)] else []) + Scan(rest, true, p)
    {
      match p
      case Flag => SilentElsewhere(line, "cookie_refresh", rest, p, 7, 7);
      case SameSite => SilentElsewhere(line, "cookie_refresh", rest, p, 7, 7);
      case Duration =>
        var text := line + ['\n'] + rest;
        var value := "\"" + "1h" + "\"";
        assert text == "cookie_refresh" + " = " + (value + ['\n'] + rest);
        assert text[..14] == "cookie_refresh";
        assert text[7] == 'r' && !SameChar(text[7], KeysOf(Duration)[0][7], false);
        KeyAt(text, p, false, 7);
        QuotedValue("1h", rest, p);
        ScanHit(text, "cookie_refresh", value, rest, p);
    }
  }

  // ----- All other lines are silent

  lemma ListenLinesSilent(r: Realm, p: Pattern)
    ensures AllSilent(ListenLines(r), p)
  {
    ListenLinesAreLines(r);
    var lines := ListenLines(r);
    forall i | 0 <= i < |lines|
      ensures Silent(lines[i], p)
    {
      assert IsLine(lines[i]);
      NotACookieLine(lines[i], 0);
    }
  }

  lemma CookieSecretSilent(value: string, p: Pattern)
    ensures Silent(Assign("cookie_secret", value), p)
  {
    AssignIsLine("cookie_secret", value);
    var line := Assign("cookie_secret", value);
    assert line[..13] == "cookie_secret";
    match p
    case Duration => NotThatCookieLine(line, "cookie_secret", p, 7, 7);
    case Flag => NotThatCookieLine(line, "cookie_secret", p, 10, 7);
    case SameSite => NotThatCookieLine(line, "cookie_secret", p, 8, 8);
  }

  lemma ClientLinesSilent(r: Realm, p: Pattern)
    ensures AllSilent(ClientLines(r), p)
  {
    ClientLinesAreLines(r);
    CookieSecretSilent(r.cookieSecret, p);
    var lines := ClientLines(r);
    forall i | 0 <= i < 5
      ensures Silent(lines[i], p)
    {
      assert IsLine(lines[i]);
      NotACookieLine(lines[i], if i == 2 || i == 3 then 1 else 0);
    }
  }

  lemma ScopeLinesSilent(r: Realm, p: Pattern)
    ensures AllSilent(ScopeLines(r), p)
  {
    ScopeLinesAreLines(r);
    var lines := ScopeLines(r);
    forall i | 0 <= i < |lines|
      ensures Silent(lines[i], p)
    {
      assert IsLine(lines[i]);
      NotACookieLine(lines[i], if i == 0 then 2 else 0);
    }
  }

  lemma TlsLinesSilent(p: Pattern)
    ensures AllSilent(TLS_LINES, p)
  {
    TlsLinesAreLines();
    forall i | 0 <= i < |TLS_LINES|
      ensures Silent(TLS_LINES[i], p)
    {
      assert IsLine(TLS_LINES[i]);
      NotACookieLine(TLS_LINES[i], 0);
    }
  }

  lemma DomainLinesSilent(r: Realm, p: Pattern)
    ensures AllSilent(DomainLines(r), p)
  {
    DomainLinesAreLines(r);
    if r.domain.Some? {
      var lines := DomainLines(r);
      assert IsLine(lines[0]) && IsLine(lines[1]);
      assert lines[0][..14] == "cookie_domains";
      NotThatCookieLine(lines[0], "cookie_domains", p, 7, 7);
      NotACookieLine(lines[1], 0);
    }
  }

  lemma TailLinesSilent(p: Pattern)
    ensures AllSilent(TAIL_LINES[..4], p)
  {
    TailLinesAreLines();
    forall i | 0 <= i < 4
      ensures Silent(TAIL_LINES[i], p)
    {
      assert IsLine(TAIL_LINES[i]);
      NotACookieLine(TAIL_LINES[i], 0);
    }
  }

  // ----- Reading the whole file

  lemma ScanEmpty(p: Pattern)
    ensures Scan(JoinLines([""]), true, p) == []
  {
    assert SkipBlank("") == "";
    assert KeyLength("", p) == 0;
  }

  ghost predicate StartsLine(s: string) { s != [] && !Blank(s[0]) }

  // The matches of one pattern among the cookie lines, with what follows each of them.
  ghost predicate Found(matches: seq<Match>, p: Pattern) {
    match p
    case Duration => |matches| == 2 && matches[0].key == "cookie_expire" && matches[0].value == "12h"
                     && matches[1].key == "cookie_refresh" && matches[1].value == "1h"
    case Flag => |matches| == 2 && matches[0].key == "cookie_secure" && matches[0].value == "true"
                 && matches[1].key == "cookie_httponly" && matches[1].value == "true"
    case SameSite => |matches| == 1 && matches[0].key == "cookie_samesite" && matches[0].value == "lax"
  }

  function OwnMatch(own: Pattern, key: string, value: string, rest: string, p: Pattern): seq<Match> {
    if p == own then [Match(key, value, ['\n'] + rest, false)] else []
  }

  lemma LineScan(line: string, own: Pattern, key: string, value: string, rest: string, p: Pattern)
    requires CookieLineScans(line, own, key, value) && StartsLine(line) && StartsLine(rest)
    ensures Scan(line + ['\n'] + rest, true, p) == OwnMatch(own, key, value, rest, p) + Scan(rest, true, p)
    ensures StartsLine(line + ['\n'] + rest)
  {}

  // Five lines, each found by its own pattern only, before a silent rest.
  lemma FiveLinesScan(c: seq<string>, rest: string, p: Pattern)
    requires |c| == 5 && StartsLine(rest) && Scan(rest, true, p) == []
    requires forall i :: 0 <= i < 5 ==> StartsLine(c[i])
    requires CookieLineScans(c[0], Flag, "cookie_secure", "true")
    requires CookieLineScans(c[1], Flag, "cookie_httponly", "true")
    requires CookieLineScans(c[2], SameSite, "cookie_samesite", "lax")
    requires CookieLineScans(c[3], Duration, "cookie_expire", "12h")
    requires CookieLineScans(c[4], Duration, "cookie_refresh", "1h")
    ensures Found(Scan(JoinWith(c, rest), true, p), p)
  {
    JoinWithFive(c, rest);
    var r4 := c[4] + ['\n'] + rest;
    var r3 := c[3] + ['\n'] + r4;
    var r2 := c[2] + ['\n'] + r3;
    var r1 := c[1] + ['\n'] + r2;
    LineScan(c[4], Duration, "cookie_refresh", "1h", rest, p);
    LineScan(c[3], Duration, "cookie_expire", "12h", r4, p);
    LineScan(c[2], SameSite, "cookie_samesite", "lax", r3, p);
    LineScan(c[1], Flag, "cookie_httponly", "true", r2, p);
    LineScan(c[0], Flag, "cookie_secure", "true", r1, p);
    OwnMatchesAreFound(r1, r2, r3, r4, rest, p);
  }

  lemma OwnMatchesAreFound(r1: string, r2: string, r3: string, r4: string, rest: string, p: Pattern)
    ensures Found(OwnMatch(Flag, "cookie_secure", "true", r1, p) + (OwnMatch(Flag, "cookie_httponly", "true", r2, p)
                  + (OwnMatch(SameSite, "cookie_samesite", "lax", r3, p) + (OwnMatch(Duration, "cookie_expire", "12h", r4, p)
                     + (OwnMatch(Duration, "cookie_refresh", "1h", rest, p) + [])))), p)
  {}

  // The lines, each ended by a newline, and then the rest.
  function JoinWith(lines: seq<string>, rest: string): string {
    if lines == [] then rest else lines[0] + ['\n'] + JoinWith(lines[1..], rest)
  }

  lemma JoinWithFive(c: seq<string>, rest: string)
    requires |c| == 5
    ensures JoinWith(c, rest)
         == c[0] + ['\n'] + (c[1] + ['\n'] + (c[2] + ['\n'] + (c[3] + ['\n'] + (c[4] + ['\n'] + rest))))
  {
    assert c[1..][1..] == c[2..] && c[2..][1..] == c[3..] && c[3..][1..] == c[4..] && c[4..][1..] == [];
    assert JoinWith(c[4..], rest) == c[4] + ['\n'] + rest;
    assert JoinWith(c[3..], rest) == c[3] + ['\n'] + JoinWith(c[4..], rest);
    assert JoinWith(c[2..], rest) == c[2] + ['\n'] + JoinWith(c[3..], rest);
    assert JoinWith(c[1..], rest) == c[1] + ['\n'] + JoinWith(c[2..], rest);
  }

  lemma CookieBlockFound(rest: string, p: Pattern)
    requires StartsLine(rest) && Scan(rest, true, p) == []
    ensures Found(Scan(JoinWith(COOKIE_LINES, rest), true, p), p)
  {
    SecureLine();
    HttpOnlyLine();
    SameSiteLine();
    ExpireLine();
    RefreshLine();
    FiveLinesScan(COOKIE_LINES, rest, p);
  }

  lemma {:induction false} JoinBefore(lines: seq<string>, after: seq<string>)
    requires after != []
    ensures JoinLines(lines + after) == JoinWith(lines, JoinLines(after))
  {
    if lines == [] {
      assert lines + after == after;
    } else {
      JoinBefore(lines[1..], after);
      JoinCons(lines[0], lines[1..] + after);
      assert lines + after == [lines[0]] + (lines[1..] + after);
    }
  }

  lemma TailScans(p: Pattern)
    ensures Scan(JoinLines(TAIL_LINES), true, p) == []
  {
    TailLinesSilent(p);
    assert TAIL_LINES == TAIL_LINES[..4] + [""];
    ScanSilentBlock(TAIL_LINES[..4], [""], p);
    ScanEmpty(p);
  }

  // A joined block that starts with a silent line starts a line.
  lemma SilentStart(lines: seq<string>, p: Pattern)
    requires |lines| >= 2 && Silent(lines[0], p)
    ensures StartsLine(JoinLines(lines))
  {
    JoinCons(lines[0], lines[1..]);
    assert lines == [lines[0]] + lines[1..];
  }

  lemma AfterCookies(r: Realm, p: Pattern)
    ensures var text := JoinLines(DomainLines(r) + TAIL_LINES);
      StartsLine(text) && Scan(text, true, p) == []
  {
    DomainLinesSilent(r, p);
    ScanSilentBlock(DomainLines(r), TAIL_LINES, p);
    TailScans(p);
    TailLinesSilent(p);
    var after := DomainLines(r) + TAIL_LINES;
    assert after[0] == if r.domain.Some? then DomainLines(r)[0] else TAIL_LINES[..4][0];
    SilentStart(after, p);
  }

  lemma BeforeCookies(r: Realm, rest: seq<string>, p: Pattern)
    requires rest != []
    ensures var tls := if r.skipTlsVerify then TLS_LINES else [];
      Scan(JoinLines(ListenLines(r) + (ClientLines(r) + (ScopeLines(r) + (tls + rest)))), true, p)
        == Scan(JoinLines(rest), true, p)
  {
    var tls := if r.skipTlsVerify then TLS_LINES else [];
    TlsLinesSilent(p);
    ScanSilentBlock(tls, rest, p);
    ScopeLinesSilent(r, p);
    ScanSilentBlock(ScopeLines(r), tls + rest, p);
    ClientLinesSilent(r, p);
    ScanSilentBlock(ClientLines(r), ScopeLines(r) + (tls + rest), p);
    ListenLinesSilent(r, p);
    ScanSilentBlock(ListenLines(r), ClientLines(r) + (ScopeLines(r) + (tls + rest)), p);
  }

  lemma BlocksOfFile(r: Realm, tls: seq<string>)
    requires tls == if r.skipTlsVerify then TLS_LINES else []
    ensures Lines(r) == ListenLines(r) + (ClientLines(r) + (ScopeLines(r)
                        + (tls + (COOKIE_LINES + (DomainLines(r) + TAIL_LINES)))))
  {
    FlattenSeven(ListenLines(r), ClientLines(r), ScopeLines(r), tls, COOKIE_LINES, DomainLines(r), TAIL_LINES);
  }

  lemma FlattenSeven(a: seq<string>, b: seq<string>, c: seq<string>, d: seq<string>, e: seq<string>, f: seq<string>, g: seq<string>)
    ensures a + b + c + d + e + f + g == a + (b + (c + (d + (e + (f + g)))))
  {
    JoinAssociates(a, b, c + (d + (e + (f + g))));
    JoinAssociates(a + b, c, d + (e + (f + g)));
    JoinAssociates(a + b + c, d, e + (f + g));
    JoinAssociates(a + b + c + d, e, f + g);
    JoinAssociates(a + b + c + d + e, f, g);
  }

  lemma ScanFile(r: Realm, p: Pattern)
    ensures Found(Scan(JoinLines(Lines(r)), true, p), p)
  {
    var after := DomainLines(r) + TAIL_LINES;
    AfterCookies(r, p);
    CookieBlockFound(JoinLines(after), p);
    JoinBefore(COOKIE_LINES, after);
    BeforeCookies(r, COOKIE_LINES + after, p);
    BlocksOfFile(r, if r.skipTlsVerify then TLS_LINES else []);
  }

  const FIXED_SETTINGS: Settings := map[
    "cookie_expire" := Some("12h"), "cookie_refresh" := Some("1h"), "cookie_secure" := Some("true"),
    "cookie_httponly" := Some("true"), "cookie_samesite" := Some("lax") ]

  // Main result: for all field values, reading the generated file back gives exactly the five fixed
  // cookie settings, which conform to the session-alignment target.
  lemma SettingsReadBack(r: Realm)
    ensures ReadSettings(JoinLines(Lines(r))) == FIXED_SETTINGS
    ensures CookieFlagsConform(ReadSettings(JoinLines(Lines(r))))
  {
    var text := JoinLines(Lines(r));
    ScanFile(r, Duration);
    ScanFile(r, Flag);
    ScanFile(r, SameSite);
    TwoAssigned(NO_SETTINGS, Scan(text, true, Duration), false);
    var found := Assigned(NO_SETTINGS, Scan(text, true, Duration), false);
    TwoAssigned(found, Scan(text, true, Flag), true);
    LowerFixed();
    UpdatesGiveFixed();
    FixedConforms();
  }

  lemma LowerFixed()
    ensures Lower("true") == "true" && Lower("lax") == "lax"
  {
    assert "true"[1..] == "rue" && "rue"[1..] == "ue" && "ue"[1..] == "e" && "e"[1..] == "";
    assert "lax"[1..] == "ax" && "ax"[1..] == "x" && "x"[1..] == "";
  }

  lemma TwoAssigned(found: Settings, m: seq<Match>, lower: bool)
    requires |m| == 2
    ensures Assigned(found, m, lower)
         == found[m[0].key := Some(if lower then Lower(m[0].value) else m[0].value)]
                 [m[1].key := Some(if lower then Lower(m[1].value) else m[1].value)]
  {
    var one := m[..1];
    assert one[..0] == [] && one[0] == m[0];
    assert Assigned(found, one[..0], lower) == found;
    assert Assigned(found, one, lower) == found[m[0].key := Some(if lower then Lower(m[0].value) else m[0].value)];
  }

  lemma UpdatesGiveFixed()
    ensures NO_SETTINGS["cookie_expire" := Some("12h")]["cookie_refresh" := Some("1h")]
            ["cookie_secure" := Some("true")]["cookie_httponly" := Some("true")]["cookie_samesite" := Some("lax")]
         == FIXED_SETTINGS
  {}

  lemma FixedConforms()
    ensures CookieFlagsConform(FIXED_SETTINGS)
  {
    LowerFixed();
    var f := FIXED_SETTINGS;
    assert f["cookie_secure"] == Some("true") && f["cookie_httponly"] == Some("true") && f["cookie_samesite"] == Some("lax");
  }
}
