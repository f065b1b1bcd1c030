/** Reading the generated oauth2-proxy file (app/admin/export.py) back line by line, in the form of
    TOML v1.0.0 that it uses: comments, strings, booleans and lists of strings. */
module ConfigReader {
  import opened PyText
  import opened OAuthConfig

  datatype Value = Text(text: string) | Switch(on: bool) | Texts(items: seq<string>)

  // A line sets a key or, being blank or a comment, nothing.
  datatype Line = Nothing | Entry(key: string, value: Value)

  predicate KeyChar(c: char) {
    'A' <= c <= 'Z' || 'a' <= c <= 'z' || '0' <= c <= '9' || c == '_' || c == '-'
  }

  function KeyLen(s: string): (n: nat)
    ensures n <= |s|
  {
    if s == [] || !KeyChar(s[0]) then 0 else 1 + KeyLen(s[1..])
  }

  function SkipSpaces(s: string): (r: string)
    ensures |r| <= |s|
  {
    if s != [] && s[0] == ' ' then SkipSpaces(s[1..]) else s
  }

  // A string that fills the text, from its opening quote to the end.
  function ReadText(s: string): Option<string> {
    if s == [] || s[0] != '"' then None
    else
      match ReadString(s[1..])
      case Some((v, rest)) => if rest == [] then Some(v) else None
      case None => None
  }

  // A list of one string that fills the text, the only lists the generator writes.
  function ReadList(s: string): Option<string> {
    if s == [] || s[0] != '[' then None
    else
      var inner := SkipSpaces(s[1..]);
      if inner == [] || inner[0] != '"' then None
      else
        match ReadString(inner[1..])
        case Some((v, rest)) => if SkipSpaces(rest) == "]" then Some(v) else None
        case None => None
  }

  function ReadValue(s: string): Option<Value> {
    if s == "true" then Some(Switch(true))
    else if s == "false" then Some(Switch(false))
    else if ReadText(s).Some? then Some(Text(ReadText(s).value))
    else if ReadList(s).Some? then Some(Texts([ReadList(s).value]))
    else None
  }

  // A comment may hold no control character but the tab.
  predicate CommentText(s: string) { forall c :: c in s ==> Bare(c) }

  function ReadLine(line: string): Option<Line> {
    if line == [] then Some(Nothing)
    else if line[0] == '#' then if CommentText(line) then Some(Nothing) else None
    else
      var k := KeyLen(line);
      if k == 0 || !(" = " <= line[k..]) then None
      else
        match ReadValue(line[k + 3..])
        case Some(v) => Some(Entry(line[..k], v))
        case None => None
  }

  function ReadLines(lines: seq<string>): Option<seq<Line>> {
    if lines == [] then Some([])
    else
      match (ReadLine(lines[0]), ReadLines(lines[1..]))
      case (Some(first), Some(rest)) => Some([first] + rest)
      case _ => None
  }

  function ReadFile(text: string): Option<seq<Line>> { ReadLines(Split(text, '\n')) }

  // ----- One line

  lemma {:induction false} KeyLenIs(key: string, rest: string)
    requires forall i :: 0 <= i < |key| ==> KeyChar(key[i])
    requires rest == [] || !KeyChar(rest[0])
    ensures KeyLen(key + rest) == |key|
  {
    if key == [] {
      assert key + rest == rest;
    } else {
      KeyLenIs(key[1..], rest);
      assert (key + rest)[1..] == key[1..] + rest;
    }
  }

  predicate Key(key: string) { key != [] && forall i :: 0 <= i < |key| ==> KeyChar(key[i]) }

  // A line that assigns a text to a key reads as that text does.
  lemma EntryReads(key: string, text: string)
    requires Key(key)
    ensures ReadLine(key + " = " + text) == match ReadValue(text) { case Some(v) => Some(Entry(key, v)) case None => None }
  {
    var line := key + " = " + text;
    KeyLenIs(key, " = " + text);
    assert line == key + (" = " + text);
    assert line[|key|..] == " = " + text;
    assert line[|key| + 3..] == text;
  }

  lemma {:induction false} DelReadsNone(v: string, rest: string)
    requires 0x7F as char in v
    ensures ReadString(Escape(v) + rest) == None
  {
    JoinAssociates(EscapeChar(v[0]), Escape(v[1..]), rest);
    if v[0] == 0x7F as char {
      DelIsRefused(Escape(v[1..]) + rest);
    } else {
      assert v == [v[0]] + v[1..];
      DelReadsNone(v[1..], rest);
      EscapedCharReads(v[0], Escape(v[1..]) + rest);
    }
  }

  lemma QuotedText(v: string)
    ensures ReadText(TomlStr(v)) == if 0x7F as char in v then None else Some(v)
  {
    assert TomlStr(v)[1..] == Escape(v) + (['"'] + []);
    if 0x7F as char in v {
      DelReadsNone(v, ['"'] + []);
    } else {
      EscapedValueReads(v, []);
    }
  }

  lemma QuotedReads(v: string)
    ensures ReadValue(TomlStr(v)) == if 0x7F as char in v then None else Some(Text(v))
  {
    QuotedText(v);
    assert TomlStr(v)[0] == '"';
  }

  lemma SpaceSkipped(s: string)
    requires s != [] && s[0] != ' '
    ensures SkipSpaces([' '] + s) == s && SkipSpaces(s) == s
  {
    assert ([' '] + s)[1..] == s;
  }

  lemma ListText(s: string, v: string, close: string)
    requires s != [] && s[0] == '[' && SkipSpaces(s[1..]) == TomlStr(v) + close && SkipSpaces(close) == "]"
    ensures ReadList(s) == if 0x7F as char in v then None else Some(v)
  {
    QuotedThen(v, close);
  }

  // A quoted text in front of more text reads up to its own closing quote.
  lemma QuotedThen(v: string, rest: string)
    ensures var s := TomlStr(v) + rest;
      s[0] == '"' && ReadString(s[1..]) == if 0x7F as char in v then None else Some((v, rest))
  {
    var s := TomlStr(v) + rest;
    assert s[0] == '"' && s[1..] == Escape(v) + (['"'] + rest);
    if 0x7F as char in v {
      DelReadsNone(v, ['"'] + rest);
    } else {
      EscapedValueReads(v, rest);
    }
  }

  lemma TightList(v: string)
    ensures ReadList("[" + TomlStr(v) + "]") == if 0x7F as char in v then None else Some(v)
  {
    var s := "[" + TomlStr(v) + "]";
    assert s[0] == '[' && s[1..] == TomlStr(v) + "]";
    SpaceSkipped(TomlStr(v) + "]");
    SpaceSkipped("]");
    ListText(s, v, "]");
  }

  lemma WideList(v: string)
    ensures ReadList("[ " + TomlStr(v) + " ]") == if 0x7F as char in v then None else Some(v)
  {
    var s := "[ " + TomlStr(v) + " ]";
    var quoted := TomlStr(v) + " ]";
    assert s[1..] == [' '] + quoted;
    SpaceSkipped(quoted);
    SpaceSkipped("]");
    assert " ]" == [' '] + "]";
    ListText(s, v, " ]");
  }

  // A list of one string, with or without blanks inside its brackets.
  lemma ListReads(v: string)
    ensures ReadValue("[" + TomlStr(v) + "]") == if 0x7F as char in v then None else Some(Texts([v]))
    ensures ReadValue("[ " + TomlStr(v) + " ]") == if 0x7F as char in v then None else Some(Texts([v]))
  {
    TightList(v);
    WideList(v);
    assert ("[" + TomlStr(v) + "]")[0] == '[' && ("[ " + TomlStr(v) + " ]")[0] == '[';
  }

  // ----- The lines of the generated file

  lemma SwitchReads(line: string, key: string, on: bool)
    requires Key(key) && line == key + " = " + if on then "true" else "false"
    ensures ReadLine(line) == Some(Entry(key, Switch(on)))
  {
    EntryReads(key, if on then "true" else "false");
  }

  // Characters that the printer leaves alone.
  predicate Plain(s: string) { forall i :: 0 <= i < |s| ==> s[i] >= ' ' && s[i] != '"' && s[i] != '\\' && s[i] != 0x7F as char }

  lemma {:induction false} PlainEscape(s: string)
    requires Plain(s)
    ensures Escape(s) == s && 0x7F as char !in s
  {
    if s != [] {
      PlainEscape(s[1..]);
      assert s == [s[0]] + s[1..];
    }
  }

  lemma TextReads(line: string, key: string, text: string)
    requires Key(key) && Plain(text) && line == key + " = " + ("\"" + text + "\"")
    ensures ReadLine(line) == Some(Entry(key, Text(text)))
  {
    PlainEscape(text);
    QuotedReads(text);
    EntryReads(key, TomlStr(text));
  }

  lemma AssignReads(key: string, v: string)
    requires Key(key)
    ensures ReadLine(Assign(key, v)) == if 0x7F as char in v then None else Some(Entry(key, Text(v)))
  {
    QuotedReads(v);
    EntryReads(key, TomlStr(v));
  }

  lemma WideListLine(line: string, key: string, v: string)
    requires Key(key) && line == key + " = " + ("[ " + TomlStr(v) + " ]")
    ensures ReadLine(line) == if 0x7F as char in v then None else Some(Entry(key, Texts([v])))
  {
    ListReads(v);
    EntryReads(key, "[ " + TomlStr(v) + " ]");
  }

  lemma WidePlainList(line: string, key: string, text: string)
    requires Key(key) && Plain(text) && line == key + " = " + ("[ \"" + text + "\" ]")
    ensures ReadLine(line) == Some(Entry(key, Texts([text])))
  {
    PlainEscape(text);
    assert "[ " + TomlStr(text) + " ]" == "[ \"" + text + "\" ]";
    WideListLine(line, key, text);
  }

  lemma TightPlainList(line: string, key: string, text: string)
    requires Key(key) && Plain(text) && line == key + " = " + ("[\"" + text + "\"]")
    ensures ReadLine(line) == Some(Entry(key, Texts([text])))
  {
    PlainEscape(text);
    assert "[" + TomlStr(text) + "]" == "[\"" + text + "\"]";
    ListReads(text);
    EntryReads(key, "[" + TomlStr(text) + "]");
  }

  // Characters of a slug that the comment line takes: blanks become spaces, no other control character may occur.
  predicate CommentSafe(slug: string) { forall c :: c in slug ==> IsSpace(c) || Bare(c) }

  lemma {:induction false} OneLineCharacters(s: string)
    ensures CommentText(OneLine(s)) <==> CommentSafe(s)
    decreases |s|
  {
    if s != [] {
      if IsSpace(s[0]) {
        OneLineCharacters(s[1..]);
        assert s == [s[0]] + s[1..];
      } else {
        var w := WordLength(s);
        OneLineCharacters(s[w..]);
        var rest := OneLine(s[w..]);
        var tail := if rest == [] then [] else [' '] + rest;
        CommentJoin([' '], rest);
        CommentJoin(s[..w], tail);
        WordCharacters(s, w);
      }
    }
  }

  lemma CommentJoin(a: string, b: string)
    ensures CommentText(a + b) <==> CommentText(a) && CommentText(b)
  {
    assert forall c :: c in a + b <==> c in a || c in b;
  }

  lemma WordCharacters(s: string, w: nat)
    requires w <= |s| && forall i :: 0 <= i < w ==> !IsSpace(s[i])
    ensures CommentSafe(s) <==> CommentText(s[..w]) && CommentSafe(s[w..])
  {
    assert s == s[..w] + s[w..];
    assert forall c :: c in s <==> c in s[..w] || c in s[w..];
    assert forall c :: c in s[..w] ==> !IsSpace(c);
  }

  lemma BannerStart()
    ensures CommentText("# Generated for realm: ")
  {}

  lemma BannerEnd()
    ensures CommentText(" — source of truth: DB ") && CommentText("RealmConfig (do not edit)")
  {}

  lemma BannerReads(slug: string)
    ensures ReadLine(Banner(slug)) == if CommentSafe(slug) then Some(Nothing) else None
  {
    var start, middle, end := "# Generated for realm: ", " — source of truth: DB ", "RealmConfig (do not edit)";
    BannerStart();
    BannerEnd();
    OneLineCharacters(slug);
    CommentJoin(start, OneLine(slug));
    CommentJoin(start + OneLine(slug), middle);
    CommentJoin(start + OneLine(slug) + middle, end);
    assert Banner(slug) == start + OneLine(slug) + middle + end;
  }

  lemma CommentReads(line: string)
    requires line != [] && line[0] == '#' && CommentText(line)
    ensures ReadLine(line) == Some(Nothing)
  {}

  lemma TlsNoteIsComment()
    ensures CommentText(TLS_NOTE)
  {}

  lemma TlsRestIsComment()
    ensures CommentText(TLS_SWITCH) && CommentText(TLS_UNTIL)
  {}

  lemma TlsCommentReads()
    ensures ReadLine(TLS_LINES[0]) == Some(Nothing)
  {
    TlsNoteIsComment();
    TlsRestIsComment();
    CommentJoin(TLS_NOTE, TLS_SWITCH);
    CommentJoin(TLS_NOTE + TLS_SWITCH, TLS_UNTIL);
    CommentReads(TLS_LINES[0]);
  }

  // ----- What the lines are meant to say

  function ListenEntries(r: Realm): seq<Line> {
    [ Nothing,
      Entry("http_address", Text(if r.docker then "0.0.0.0:4180" else "127.0.0.1:" + Decimal(r.port))),
      Entry("upstreams", Texts(["file:///dev/null"])),
      Entry("reverse_proxy", Switch(true)),
      Entry("skip_provider_button", Switch(true)) ]
  }

  function ClientEntries(r: Realm): seq<Line> {
    [ Entry("provider", Text("oidc")),
      Entry("oidc_issuer_url", Text(r.issuer)),
      Entry("client_id", Text(r.clientId)),
      Entry("client_secret", Text(r.clientSecret)),
      Entry("redirect_url", Text(r.redirect)),
      Entry("cookie_secret", Text(r.cookieSecret)) ]
  }

  function ScopeEntries(r: Realm): seq<Line> {
    [ Entry("code_challenge_method", Text("S256")),
      Entry("scope", Text(r.scopes)),
      Entry("email_domains", Texts(["*"])),
      Entry("insecure_oidc_allow_unverified_email", Switch(true)) ]
  }

  const TLS_ENTRIES := [Nothing, Entry("ssl_insecure_skip_verify", Switch(true))]

  const COOKIE_ENTRIES := [
    Entry("cookie_secure", Switch(true)),
    Entry("cookie_httponly", Switch(true)),
    Entry("cookie_samesite", Text("lax")),
    Entry("cookie_expire", Text("12h")),
    Entry("cookie_refresh", Text("1h")) ]

  function DomainEntries(r: Realm): seq<Line> {
    if r.domain.None? then []
    else [ Entry("cookie_domains", Texts([r.domain.value])), Entry("whitelist_domains", Texts([r.domain.value])) ]
  }

  const TAIL_ENTRIES := [
    Entry("set_xauthrequest", Switch(true)),
    Entry("user_id_claim", Text("sub")),
    Entry("pass_access_token", Switch(false)),
    Entry("pass_authorization_header", Switch(true)),
    Nothing ]

  // What the whole file is meant to say, line by line.
  function Intended(r: Realm): seq<Line> {
    ListenEntries(r) + (ClientEntries(r) + (ScopeEntries(r) + ((if r.skipTlsVerify then TLS_ENTRIES else [])
    + (COOKIE_ENTRIES + (DomainEntries(r) + TAIL_ENTRIES)))))
  }

  predicate ClientPrintable(r: Realm) {
    && 0x7F as char !in r.issuer && 0x7F as char !in r.clientId && 0x7F as char !in r.clientSecret
    && 0x7F as char !in r.redirect && 0x7F as char !in r.cookieSecret
  }

  // No field holds a DEL, and the slug no control character that is not a blank.
  predicate Printable(r: Realm) {
    && CommentSafe(r.slug) && ClientPrintable(r) && 0x7F as char !in r.scopes
    && (r.domain.Some? ==> 0x7F as char !in r.domain.value)
  }

  // ----- Block by block

  ghost predicate AllRead(lines: seq<string>, says: seq<Line>) {
    |lines| == |says| && forall i :: 0 <= i < |lines| ==> ReadLine(lines[i]) == Some(says[i])
  }

  lemma AllReadJoin(a: seq<string>, x: seq<Line>, b: seq<string>, y: seq<Line>)
    requires |a| == |x|
    ensures AllRead(a + b, x + y) <==> AllRead(a, x) && AllRead(b, y)
  {
    if AllRead(a + b, x + y) {
      forall i | 0 <= i < |a| ensures ReadLine(a[i]) == Some(x[i]) {
        assert (a + b)[i] == a[i] && (x + y)[i] == x[i];
      }
      forall i | 0 <= i < |b| ensures ReadLine(b[i]) == Some(y[i]) {
        assert (a + b)[|a| + i] == b[i] && (x + y)[|a| + i] == y[i];
      }
    }
  }

  lemma AddressReads(r: Realm)
    ensures ReadLine(Assign("http_address", HttpAddress(r))) == Some(Entry("http_address", Text(HttpAddress(r))))
  {
    AssignReads("http_address", HttpAddress(r));
    DecimalNotBlank(r.port);
  }

  lemma UpstreamsReads()
    ensures ReadLine("upstreams = [ \"file:///dev/null\" ]") == Some(Entry("upstreams", Texts(["file:///dev/null"])))
  {
    WidePlainList("upstreams = [ \"file:///dev/null\" ]", "upstreams", "file:///dev/null");
  }

  lemma ProxyReads()
    ensures ReadLine("reverse_proxy = true") == Some(Entry("reverse_proxy", Switch(true)))
  {
    SwitchReads("reverse_proxy = true", "reverse_proxy", true);
  }

  lemma SkipButtonReads()
    ensures ReadLine("skip_provider_button = true") == Some(Entry("skip_provider_button", Switch(true)))
  {
    SwitchReads("skip_provider_button = true", "skip_provider_button", true);
  }

  lemma ListenRead(r: Realm)
    ensures AllRead(ListenLines(r), ListenEntries(r)) <==> CommentSafe(r.slug)
  {
    BannerReads(r.slug);
    AddressReads(r);
    UpstreamsReads();
    ProxyReads();
    SkipButtonReads();
    FirstOfFive(Banner(r.slug), Assign("http_address", HttpAddress(r)), "upstreams = [ \"file:///dev/null\" ]",
                "reverse_proxy = true", "skip_provider_button = true",
                Nothing, Entry("http_address", Text(HttpAddress(r))), Entry("upstreams", Texts(["file:///dev/null"])),
                Entry("reverse_proxy", Switch(true)), Entry("skip_provider_button", Switch(true)));
  }

  lemma FirstOfFive(l0: string, l1: string, l2: string, l3: string, l4: string, e0: Line, e1: Line, e2: Line, e3: Line, e4: Line)
    requires ReadLine(l1) == Some(e1) && ReadLine(l2) == Some(e2) && ReadLine(l3) == Some(e3) && ReadLine(l4) == Some(e4)
    ensures AllRead([l0, l1, l2, l3, l4], [e0, e1, e2, e3, e4]) <==> ReadLine(l0) == Some(e0)
  {
    var l, e := [l0, l1, l2, l3, l4], [e0, e1, e2, e3, e4];
    assert l[0] == l0 && l[1] == l1 && l[2] == l2 && l[3] == l3 && l[4] == l4;
    assert AllRead(l, e) ==> ReadLine(l[0]) == Some(e[0]);
  }

  lemma FiveRead(l: seq<string>, e: seq<Line>)
    requires |l| == |e| == 5
    requires ReadLine(l[1]) == Some(e[1]) && ReadLine(l[2]) == Some(e[2]) && ReadLine(l[3]) == Some(e[3]) && ReadLine(l[4]) == Some(e[4])
    ensures AllRead(l, e) <==> ReadLine(l[0]) == Some(e[0])
  {}

  lemma ProviderReads()
    ensures ReadLine("provider = \"oidc\"") == Some(Entry("provider", Text("oidc")))
  {
    TextReads("provider = \"oidc\"", "provider", "oidc");
  }

  // The quoted fields of the realm.
  lemma IssuerReads(v: string)
    ensures ReadLine(Assign("oidc_issuer_url", v)) == if 0x7F as char in v then None else Some(Entry("oidc_issuer_url", Text(v)))
  {
    AssignReads("oidc_issuer_url", v);
  }

  lemma ClientIdReads(v: string)
    ensures ReadLine(Assign("client_id", v)) == if 0x7F as char in v then None else Some(Entry("client_id", Text(v)))
  {
    AssignReads("client_id", v);
  }

  lemma ClientSecretReads(v: string)
    ensures ReadLine(Assign("client_secret", v)) == if 0x7F as char in v then None else Some(Entry("client_secret", Text(v)))
  {
    AssignReads("client_secret", v);
  }

  lemma RedirectReads(v: string)
    ensures ReadLine(Assign("redirect_url", v)) == if 0x7F as char in v then None else Some(Entry("redirect_url", Text(v)))
  {
    AssignReads("redirect_url", v);
  }

  lemma CookieSecretReads(v: string)
    ensures ReadLine(Assign("cookie_secret", v)) == if 0x7F as char in v then None else Some(Entry("cookie_secret", Text(v)))
  {
    AssignReads("cookie_secret", v);
  }

  lemma ClientRead(r: Realm)
    ensures AllRead(ClientLines(r), ClientEntries(r)) <==> ClientPrintable(r)
  {
    ProviderReads();
    IssuerReads(r.issuer);
    ClientIdReads(r.clientId);
    ClientSecretReads(r.clientSecret);
    RedirectReads(r.redirect);
    CookieSecretReads(r.cookieSecret);
    AllButFirst("provider = \"oidc\"", Assign("oidc_issuer_url", r.issuer), Assign("client_id", r.clientId),
                Assign("client_secret", r.clientSecret), Assign("redirect_url", r.redirect), Assign("cookie_secret", r.cookieSecret),
                Entry("provider", Text("oidc")), Entry("oidc_issuer_url", Text(r.issuer)), Entry("client_id", Text(r.clientId)),
                Entry("client_secret", Text(r.clientSecret)), Entry("redirect_url", Text(r.redirect)),
                Entry("cookie_secret", Text(r.cookieSecret)));
  }

  lemma AllButFirst(l0: string, l1: string, l2: string, l3: string, l4: string, l5: string,
                    e0: Line, e1: Line, e2: Line, e3: Line, e4: Line, e5: Line)
    requires ReadLine(l0) == Some(e0)
    ensures AllRead([l0, l1, l2, l3, l4, l5], [e0, e1, e2, e3, e4, e5])
       <==> (&& ReadLine(l1) == Some(e1) && ReadLine(l2) == Some(e2) && ReadLine(l3) == Some(e3)
             && ReadLine(l4) == Some(e4) && ReadLine(l5) == Some(e5))
  {
    var l, e := [l0, l1, l2, l3, l4, l5], [e0, e1, e2, e3, e4, e5];
    assert l[1] == l1 && l[2] == l2 && l[3] == l3 && l[4] == l4 && l[5] == l5;
    assert AllRead(l, e) ==> ReadLine(l[1]) == Some(e[1]) && ReadLine(l[2]) == Some(e[2]) && ReadLine(l[3]) == Some(e[3])
                             && ReadLine(l[4]) == Some(e[4]) && ReadLine(l[5]) == Some(e[5]);
  }

  lemma ChallengeReads()
    ensures ReadLine("code_challenge_method = \"S256\"") == Some(Entry("code_challenge_method", Text("S256")))
  {
    TextReads("code_challenge_method = \"S256\"", "code_challenge_method", "S256");
  }

  lemma ScopesRead(v: string)
    ensures ReadLine(Assign("scope", v)) == if 0x7F as char in v then None else Some(Entry("scope", Text(v)))
  {
    AssignReads("scope", v);
  }

  lemma EmailDomainsRead()
    ensures ReadLine("email_domains = [\"*\"]") == Some(Entry("email_domains", Texts(["*"])))
  {
    TightPlainList("email_domains = [\"*\"]", "email_domains", "*");
  }

  lemma UnverifiedEmailReads()
    ensures ReadLine("insecure_oidc_allow_unverified_email = true") == Some(Entry("insecure_oidc_allow_unverified_email", Switch(true)))
  {
    SwitchReads("insecure_oidc_allow_unverified_email = true", "insecure_oidc_allow_unverified_email", true);
  }

  lemma ScopeRead(r: Realm)
    ensures AllRead(ScopeLines(r), ScopeEntries(r)) <==> 0x7F as char !in r.scopes
  {
    ChallengeReads();
    ScopesRead(r.scopes);
    EmailDomainsRead();
    UnverifiedEmailReads();
    FourRead(ScopeLines(r), ScopeEntries(r));
  }

  lemma FourRead(l: seq<string>, e: seq<Line>)
    requires |l| == |e| == 4
    requires ReadLine(l[0]) == Some(e[0]) && ReadLine(l[2]) == Some(e[2]) && ReadLine(l[3]) == Some(e[3])
    ensures AllRead(l, e) <==> ReadLine(l[1]) == Some(e[1])
  {}

  lemma TlsRead()
    ensures AllRead(TLS_LINES, TLS_ENTRIES)
  {
    TlsCommentReads();
    SwitchReads(TLS_LINES[1], "ssl_insecure_skip_verify", true);
  }

  lemma SecureReads()
    ensures ReadLine(COOKIE_LINES[0]) == Some(COOKIE_ENTRIES[0])
  {
    SwitchReads(COOKIE_LINES[0], "cookie_secure", true);
  }

  lemma HttpOnlyReads()
    ensures ReadLine(COOKIE_LINES[1]) == Some(COOKIE_ENTRIES[1])
  {
    SwitchReads(COOKIE_LINES[1], "cookie_httponly", true);
  }

  lemma SameSiteReads()
    ensures ReadLine(COOKIE_LINES[2]) == Some(COOKIE_ENTRIES[2])
  {
    TextReads(COOKIE_LINES[2], "cookie_samesite", "lax");
  }

  lemma ExpireReads()
    ensures ReadLine(COOKIE_LINES[3]) == Some(COOKIE_ENTRIES[3])
  {
    TextReads(COOKIE_LINES[3], "cookie_expire", "12h");
  }

  lemma RefreshReads()
    ensures ReadLine(COOKIE_LINES[4]) == Some(COOKIE_ENTRIES[4])
  {
    TextReads(COOKIE_LINES[4], "cookie_refresh", "1h");
  }

  lemma CookieRead()
    ensures AllRead(COOKIE_LINES, COOKIE_ENTRIES)
  {
    SecureReads();
    HttpOnlyReads();
    SameSiteReads();
    ExpireReads();
    RefreshReads();
    FiveRead(COOKIE_LINES, COOKIE_ENTRIES);
  }

  lemma DomainRead(r: Realm)
    ensures AllRead(DomainLines(r), DomainEntries(r)) <==> r.domain.None? || 0x7F as char !in r.domain.value
  {
    if r.domain.Some? {
      CookieDomainsRead(r.domain.value);
      WhitelistReads(r.domain.value);
      TwoRead(DomainLines(r), DomainEntries(r));
    }
  }

  lemma TwoRead(l: seq<string>, e: seq<Line>)
    requires |l| == |e| == 2
    ensures AllRead(l, e) <==> ReadLine(l[0]) == Some(e[0]) && ReadLine(l[1]) == Some(e[1])
  {}

  lemma CookieDomainsRead(v: string)
    ensures ReadLine("cookie_domains = [ " + TomlStr(v) + " ]")
         == if 0x7F as char in v then None else Some(Entry("cookie_domains", Texts([v])))
  {
    WideListLine("cookie_domains = [ " + TomlStr(v) + " ]", "cookie_domains", v);
  }

  lemma WhitelistReads(v: string)
    ensures ReadLine("whitelist_domains = [ " + TomlStr(v) + " ]")
         == if 0x7F as char in v then None else Some(Entry("whitelist_domains", Texts([v])))
  {
    WideListLine("whitelist_domains = [ " + TomlStr(v) + " ]", "whitelist_domains", v);
  }

  lemma XAuthReads()
    ensures ReadLine(TAIL_LINES[0]) == Some(TAIL_ENTRIES[0])
  {
    SwitchReads(TAIL_LINES[0], "set_xauthrequest", true);
  }

  lemma UserClaimReads()
    ensures ReadLine(TAIL_LINES[1]) == Some(TAIL_ENTRIES[1])
  {
    TextReads(TAIL_LINES[1], "user_id_claim", "sub");
  }

  lemma PassTokenReads()
    ensures ReadLine(TAIL_LINES[2]) == Some(TAIL_ENTRIES[2])
  {
    SwitchReads(TAIL_LINES[2], "pass_access_token", false);
  }

  lemma PassHeaderReads()
    ensures ReadLine(TAIL_LINES[3]) == Some(TAIL_ENTRIES[3])
  {
    SwitchReads(TAIL_LINES[3], "pass_authorization_header", true);
  }

  lemma TailRead()
    ensures AllRead(TAIL_LINES, TAIL_ENTRIES)
  {
    XAuthReads();
    UserClaimReads();
    PassTokenReads();
    PassHeaderReads();
    assert ReadLine(TAIL_LINES[4]) == Some(TAIL_ENTRIES[4]);
    FiveRead(TAIL_LINES, TAIL_ENTRIES);
  }

  lemma LinesRead(r: Realm)
    ensures AllRead(Lines(r), Intended(r)) <==> Printable(r)
  {
    var tls, tlsSays := if r.skipTlsVerify then TLS_LINES else [], if r.skipTlsVerify then TLS_ENTRIES else [];
    var t, ts := DomainLines(r) + TAIL_LINES, DomainEntries(r) + TAIL_ENTRIES;
    TailRead();
    DomainRead(r);
    AllReadJoin(DomainLines(r), DomainEntries(r), TAIL_LINES, TAIL_ENTRIES);
    CookieRead();
    AllReadJoin(COOKIE_LINES, COOKIE_ENTRIES, t, ts);
    TlsRead();
    AllReadJoin(tls, tlsSays, COOKIE_LINES + t, COOKIE_ENTRIES + ts);
    ScopeRead(r);
    AllReadJoin(ScopeLines(r), ScopeEntries(r), tls + (COOKIE_LINES + t), tlsSays + (COOKIE_ENTRIES + ts));
    ClientRead(r);
    AllReadJoin(ClientLines(r), ClientEntries(r), ScopeLines(r) + (tls + (COOKIE_LINES + t)),
                ScopeEntries(r) + (tlsSays + (COOKIE_ENTRIES + ts)));
    ListenRead(r);
    AllReadJoin(ListenLines(r), ListenEntries(r), ClientLines(r) + (ScopeLines(r) + (tls + (COOKIE_LINES + t))),
                ClientEntries(r) + (ScopeEntries(r) + (tlsSays + (COOKIE_ENTRIES + ts))));
    BlocksOfFile(r, tls);
  }

  lemma {:induction false} ReadLinesPointwise(lines: seq<string>, says: seq<Line>)
    ensures ReadLines(lines) == Some(says) <==> AllRead(lines, says)
  {
    if lines != [] && says != [] {
      var rest, restSays := lines[1..], says[1..];
      ReadLinesPointwise(rest, restSays);
      assert lines == [lines[0]] + rest && says == [says[0]] + restSays;
      AllReadJoin([lines[0]], [says[0]], rest, restSays);
      assert AllRead([lines[0]], [says[0]]) <==> ReadLine(lines[0]) == Some(says[0]);
    }
  }

  // Main result: reading the generated file line by line gives exactly the intended settings, domain lists included,
  // if and only if no field holds a DEL and the slug no control character that is not a blank.
  lemma FileReadsBack(r: Realm)
    ensures ReadFile(JoinLines(Lines(r))) == Some(Intended(r)) <==> Printable(r)
  {
    FieldsCannotAddLines(r);
    LinesRead(r);
    ReadLinesPointwise(Lines(r), Intended(r));
  }

  // Two files that do not read back, whatever the other fields are: a client secret that is one DEL, and a slug that
  // is one control character, which the token API takes as it is.
  lemma DelSecretIsUnreadable(r: Realm)
    requires r.clientSecret == [0x7F as char]
    ensures ReadFile(JoinLines(Lines(r))) != Some(Intended(r))
  {
    FileReadsBack(r);
    assert r.clientSecret[0] in r.clientSecret;
  }

  lemma ControlSlugIsUnreadable(r: Realm)
    requires r.slug == [1 as char]
    ensures ReadFile(JoinLines(Lines(r))) != Some(Intended(r))
  {
    FileReadsBack(r);
    assert r.slug[0] in r.slug && !IsSpace(1 as char) && !Bare(1 as char);
  }

  // A realm with such a secret and one with such a slug, ordinary otherwise.
  function DelRealm(): Realm {
    Realm("main", 4180, "https://idp", "portal", [0x7F as char], "https://p/cb", "c", "openid", false, false, None)
  }

  function ControlRealm(): Realm {
    Realm([1 as char], 4180, "https://idp", "portal", "s", "https://p/cb", "c", "openid", false, false, None)
  }

  lemma OnlyThatFieldIsUnprintable()
    ensures !Printable(DelRealm()) && Printable(DelRealm().(clientSecret := "s"))
    ensures !Printable(ControlRealm()) && Printable(ControlRealm().(slug := "main"))
  {
    assert 0x7F as char in DelRealm().clientSecret;
    assert 1 as char in ControlRealm().slug && !CommentSafe(ControlRealm().slug);
  }

  lemma ExamplesAreUnreadable()
    ensures ReadFile(JoinLines(Lines(DelRealm()))) != Some(Intended(DelRealm()))
    ensures ReadFile(JoinLines(Lines(ControlRealm()))) != Some(Intended(ControlRealm()))
  {
    DelSecretIsUnreadable(DelRealm());
    ControlSlugIsUnreadable(ControlRealm());
  }
}
