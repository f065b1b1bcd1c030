/** Application catalogue mutations (app/services.py) and the access-mode rules they enforce
    (app/access_modes.py, app/bastion/bastion_fields.py). */
module AppCatalogue {
  import opened PyText

  // The literals of the request schema; a request with any other value is refused before it is handled.
  datatype CredentialMode = Shared | IndividualRequired | IdentiteUtilisateur

  datatype App = App(
    accessMode: string, upstreamUrl: string, publicFqdn: Option<string>,
    authMode: string, ssoBridge: string, credentialMode: CredentialMode, passwordCache: bool,
    allowActivesync: bool, deviceControl: bool, tlsVerify: bool)

  const ACCESS_MODES := {"sso_gate", "subdomain_proxy", "legacy_path_proxy", "public_proxy"}
  const FQDN_MODES := {"subdomain_proxy", "public_proxy"}
  const AUTH_MODES := {"sso", "teleport", "generic_form", "generic_basic_auth", "generic_wsse"}
  const SSO_BRIDGES := {"trusted_headers", "app_oidc"}

  // ----- Normalisation

  function NormalizeAccessMode(value: Option<string>): (r: string)
    ensures r in ACCESS_MODES
  {
    if value.None? || value.value == "" then "sso_gate"
    else if value.value in ACCESS_MODES then value.value
    else if value.value == "subdomain" then "subdomain_proxy"
    else "sso_gate"
  }

  // A trimmed, lower-cased name of a closed list, or the list's default.
  function NormalizeName(names: set<string>, fallback: string, value: Option<string>): (r: string)
    ensures r in names || r == fallback
  {
    if value.None? || value.value == "" then fallback
    else
      var lowered := Lower(Strip(value.value));
      if lowered in names then lowered else fallback
  }

  function NormalizeAuthMode(value: Option<string>): (r: string)
    ensures r in AUTH_MODES
  {
    NormalizeName(AUTH_MODES, "sso", value)
  }

  function NormalizeSsoBridge(value: Option<string>): (r: string)
    ensures r in SSO_BRIDGES
  {
    NormalizeName(SSO_BRIDGES, "trusted_headers", value)
  }

  // The coherent (ActiveSync, device control) pair of a mode.
  function ActivesyncFlags(mode: string, allow: bool, deviceControl: bool): (bool, bool) {
    var allowed := allow && mode == "subdomain_proxy";
    (allowed, deviceControl && allowed)
  }

  // The path component of a URL is the library's; the rules only read it.
  type UrlPath = string -> string

  predicate UpstreamHasNoPath(path: UrlPath, upstream: string) {
    path(Strip(upstream)) == "" || path(Strip(upstream)) == "/"
  }

  predicate ValidFqdn(fqdn: Option<string>) {
    fqdn.Some? && Strip(fqdn.value) != "" && ' ' !in Strip(fqdn.value) && '/' !in Strip(fqdn.value)
  }

  // `validate_app_access_fields` finds no error.
  predicate FieldsAccepted(path: UrlPath, mode: string, upstream: string, fqdn: Option<string>) {
    && Strip(upstream) != ""
    && (mode in FQDN_MODES ==> ValidFqdn(fqdn) && UpstreamHasNoPath(path, upstream))
  }

  // ----- What every stored application satisfies

  predicate AppOk(path: UrlPath, a: App) {
    && a.accessMode in ACCESS_MODES && a.authMode in AUTH_MODES && a.ssoBridge in SSO_BRIDGES
    && FieldsAccepted(path, a.accessMode, a.upstreamUrl, a.publicFqdn)
    && (a.deviceControl ==> a.allowActivesync)
    && (a.allowActivesync ==> a.accessMode == "subdomain_proxy")
    && (a.accessMode == "sso_gate" ==> !a.tlsVerify)
    && (a.authMode != "sso" ==> a.ssoBridge == "trusted_headers")
    && (a.passwordCache ==> a.credentialMode == IdentiteUtilisateur)
  }

  // ----- Requests

  // A field of a partial update: not sent, or sent with a value that may be null.
  datatype Patch<+T> = Unset | Sent(value: Option<T>)

  datatype AppUpdate = AppUpdate(
    accessMode: Patch<string>, upstreamUrl: Patch<string>, publicFqdn: Patch<string>,
    authMode: Patch<string>, ssoBridge: Patch<string>, credentialMode: Patch<CredentialMode>,
    passwordCache: Patch<bool>, allowActivesync: Patch<bool>, tlsVerify: Patch<bool>)

  datatype AppCreate = AppCreate(
    accessMode: string, upstreamUrl: string, publicFqdn: Option<string>,
    authMode: string, ssoBridge: string, credentialMode: CredentialMode, passwordCache: bool,
    allowActivesync: bool, tlsVerify: bool)

  const EMPTY_UPDATE := AppUpdate(Unset, Unset, Unset, Unset, Unset, Unset, Unset, Unset, Unset)

  // `updates.get(key, stored)`.
  function Get<T>(p: Patch<T>, stored: Option<T>): Option<T> { if p.Sent? then p.value else stored }

  function Truthy(b: Option<bool>): bool { b.Some? && b.value }

  function CreatedApp(path: UrlPath, body: AppCreate): Option<App> {
    var mode := NormalizeAccessMode(Some(body.accessMode));
    if !FieldsAccepted(path, mode, body.upstreamUrl, body.publicFqdn) then None
    else
      var auth := NormalizeAuthMode(Some(body.authMode));
      var flags := ActivesyncFlags(mode, body.allowActivesync, false);
      Some(App(
        mode, body.upstreamUrl, body.publicFqdn, auth,
        if auth == "sso" then NormalizeSsoBridge(Some(body.ssoBridge)) else "trusted_headers",
        body.credentialMode, body.passwordCache && body.credentialMode == IdentiteUtilisateur,
        flags.0, flags.1, body.tlsVerify && mode != "sso_gate"))
  }

  // The (ActiveSync, device control) columns after an update to this mode.
  function FlagsAfter(a: App, u: AppUpdate, mode: string): (bool, bool) {
    if mode == "subdomain_proxy" && u.allowActivesync.Unset? then (a.allowActivesync, a.deviceControl)
    else ActivesyncFlags(mode, Truthy(Get(u.allowActivesync, Some(a.allowActivesync))), a.deviceControl)
  }

  // The (authentication mode, SSO bridge) columns after an update.
  function AuthAfter(a: App, u: AppUpdate): (string, string) {
    if u.authMode.Unset? && u.ssoBridge.Unset? then (a.authMode, a.ssoBridge)
    else
      var auth := NormalizeAuthMode(Get(u.authMode, Some(a.authMode)));
      (if u.authMode.Sent? then auth else a.authMode,
       if auth == "sso" then NormalizeSsoBridge(Get(u.ssoBridge, Some(a.ssoBridge))) else "trusted_headers")
  }

  function TlsAfter(a: App, u: AppUpdate, mode: string): bool {
    if mode == "sso_gate" then false
    else if u.tlsVerify.Sent? then Truthy(u.tlsVerify.value)
    else a.tlsVerify
  }

  function ModeAfter(a: App, u: AppUpdate): (mode: string)
    ensures mode in ACCESS_MODES
  {
    NormalizeAccessMode(Get(u.accessMode, Some(a.accessMode)))
  }

  // The password-cache column; None is the database's refusal of a null.
  function CacheAfter(a: App, u: AppUpdate): Option<bool> {
    if Get(u.credentialMode, Some(a.credentialMode)) == Some(IdentiteUtilisateur) then Get(u.passwordCache, Some(a.passwordCache))
    else Some(false)
  }

  // None: refused by validation, or by the database for a null in a mandatory column.
  function UpdatedApp(path: UrlPath, a: App, u: AppUpdate): Option<App> {
    var mode := ModeAfter(a, u);
    var upstream := Get(u.upstreamUrl, Some(a.upstreamUrl));
    var fqdn := Get(u.publicFqdn, a.publicFqdn);
    var credential := Get(u.credentialMode, Some(a.credentialMode));
    if upstream.None? || !FieldsAccepted(path, mode, upstream.value, fqdn) || credential.None? || CacheAfter(a, u).None? then None
    else
      Some(App(
        if u.accessMode.Sent? then mode else a.accessMode, upstream.value, fqdn,
        AuthAfter(a, u).0, AuthAfter(a, u).1,
        credential.value, CacheAfter(a, u).value,
        FlagsAfter(a, u, mode).0, FlagsAfter(a, u, mode).1, TlsAfter(a, u, mode)))
  }

  // ----- The catalogue

  datatype Response = Accepted | Conflict | NotFound | Rejected

  class Catalogue {
    const path: UrlPath
    var apps: map<string, App>

    constructor (path: UrlPath)
      ensures apps == map[] && this.path == path
    {
      apps, this.path := map[], path;
    }

    method CreateApp(slug: string, body: AppCreate, pathsOk: bool) returns (response: Response)
      modifies this
      ensures slug in old(apps) ==> response == Conflict
      ensures slug !in old(apps) ==>
        response == if CreatedApp(path, body).Some? && pathsOk then Accepted else Rejected
      ensures apps == if response == Accepted then old(apps)[slug := CreatedApp(path, body).value] else old(apps)
    {
      if slug in apps {
        return Conflict;
      }
      var mode := NormalizeAccessMode(Some(body.accessMode));
      if !FieldsAccepted(path, mode, body.upstreamUrl, body.publicFqdn) {
        return Rejected;
      }
      var payload := body.(accessMode := mode);
      var auth := NormalizeAuthMode(Some(payload.authMode));
      payload := payload.(authMode := auth);
      payload := payload.(ssoBridge := if auth == "sso" then NormalizeSsoBridge(Some(payload.ssoBridge)) else "trusted_headers");
      var flags := ActivesyncFlags(mode, payload.allowActivesync, false);
      if !pathsOk {
        return Rejected;
      }
      if mode == "sso_gate" {
        payload := payload.(tlsVerify := false);
      }
      payload := payload.(passwordCache := payload.passwordCache && payload.credentialMode == IdentiteUtilisateur);
      apps := apps[slug := App(payload.accessMode, payload.upstreamUrl, payload.publicFqdn, payload.authMode,
                               payload.ssoBridge, payload.credentialMode, payload.passwordCache,
                               flags.0, flags.1, payload.tlsVerify)];
      return Accepted;
    }

    method UpdateApp(slug: string, body: AppUpdate, pathsOk: bool) returns (response: Response)
      modifies this
      ensures slug !in old(apps) ==> response == NotFound
      ensures slug in old(apps) ==>
        response == if UpdatedApp(path, old(apps)[slug], body).Some? && pathsOk then Accepted else Rejected
      ensures apps == if response == Accepted then old(apps)[slug := UpdatedApp(path, old(apps)[slug], body).value]
                      else old(apps)
    {
      if slug !in apps {
        return NotFound;
      }
      var app := apps[slug];
      var updates := body;
      var mode := NormalizeAccessMode(Get(updates.accessMode, Some(app.accessMode)));
      var upstream := Get(updates.upstreamUrl, Some(app.upstreamUrl));
      var fqdn := Get(updates.publicFqdn, app.publicFqdn);
      var accepted := AccessFieldsAccepted(path, mode, upstream, fqdn);
      if !accepted {
        return Rejected;
      }
      if updates.accessMode.Sent? {
        updates := updates.(accessMode := Sent(Some(mode)));
      }
      var deviceControl;
      updates, deviceControl := ApplyActivesyncOnUpdate(updates, app, mode);
      if !pathsOk {
        return Rejected;
      }
      updates := ApplyUpstreamTlsVerify(updates, mode);
      updates := ApplyAuthBridgeOnUpdate(updates, app);
      var row := SetAttributes(app, updates, deviceControl);
      RowIsUpdatedApp(path, app, body, updates, deviceControl);
      if row.None? {
        return Rejected;
      }
      apps := apps[slug := row.value];
      return Accepted;
    }
  }

  // The row after `setattr` of every update, or None when a mandatory column would hold a null.
  function SetAttributes(app: App, updates: AppUpdate, deviceControl: bool): Option<App> {
    var a := Get(updates.accessMode, Some(app.accessMode));
    var upstream := Get(updates.upstreamUrl, Some(app.upstreamUrl));
    var auth := Get(updates.authMode, Some(app.authMode));
    var bridge := Get(updates.ssoBridge, Some(app.ssoBridge));
    var credential := Get(updates.credentialMode, Some(app.credentialMode));
    var cache := CacheAfter(app, updates);
    var activesync := Get(updates.allowActivesync, Some(app.allowActivesync));
    var tls := Get(updates.tlsVerify, Some(app.tlsVerify));
    if None in {a, upstream, auth, bridge} || None in {cache, activesync, tls} || credential.None? then None
    else Some(App(a.value, upstream.value, Get(updates.publicFqdn, app.publicFqdn), auth.value, bridge.value,
                  credential.value, cache.value, activesync.value, deviceControl, tls.value))
  }

  // The edited updates lead to the row the specification names.
  lemma RowIsUpdatedApp(path: UrlPath, app: App, body: AppUpdate, updates: AppUpdate, deviceControl: bool)
    requires var upstream := Get(body.upstreamUrl, Some(app.upstreamUrl));
      upstream.Some? && FieldsAccepted(path, ModeAfter(app, body), upstream.value, Get(body.publicFqdn, app.publicFqdn))
    requires updates == body.(accessMode := updates.accessMode, allowActivesync := updates.allowActivesync,
                              tlsVerify := updates.tlsVerify, authMode := updates.authMode, ssoBridge := updates.ssoBridge)
    requires updates.accessMode == if body.accessMode.Sent? then Sent(Some(ModeAfter(app, body))) else Unset
    requires Get(updates.allowActivesync, Some(app.allowActivesync)) == Some(FlagsAfter(app, body, ModeAfter(app, body)).0)
    requires deviceControl == FlagsAfter(app, body, ModeAfter(app, body)).1
    requires Get(updates.tlsVerify, Some(app.tlsVerify)) == Some(TlsAfter(app, body, ModeAfter(app, body)))
    requires Get(updates.authMode, Some(app.authMode)) == Some(AuthAfter(app, body).0)
    requires Get(updates.ssoBridge, Some(app.ssoBridge)) == Some(AuthAfter(app, body).1)
    ensures SetAttributes(app, updates, deviceControl) == UpdatedApp(path, app, body)
  {}

  method AccessFieldsAccepted(path: UrlPath, mode: string, upstream: Option<string>, fqdn: Option<string>) returns (ok: bool)
    ensures ok <==> upstream.Some? && FieldsAccepted(path, mode, upstream.value, fqdn)
  {
    assert Strip("") == "";
    return FieldsAccepted(path, mode, if upstream.Some? then upstream.value else "", fqdn);
  }

  // Edits the ActiveSync key of the updates; the device-control column it leaves is returned beside them.
  method ApplyActivesyncOnUpdate(updates: AppUpdate, app: App, mode: string) returns (edited: AppUpdate, deviceControl: bool)
    ensures Get(edited.allowActivesync, Some(app.allowActivesync)) == Some(FlagsAfter(app, updates, mode).0)
    ensures deviceControl == FlagsAfter(app, updates, mode).1
    ensures edited == updates.(allowActivesync := edited.allowActivesync)
  {
    if mode == "subdomain_proxy" && updates.allowActivesync.Unset? {
      return updates, app.deviceControl;
    }
    var flags := ActivesyncFlags(mode, Truthy(Get(updates.allowActivesync, Some(app.allowActivesync))), app.deviceControl);
    return updates.(allowActivesync := Sent(Some(flags.0))), flags.1;
  }

  method ApplyUpstreamTlsVerify(target: AppUpdate, mode: string) returns (edited: AppUpdate)
    ensures forall a: App :: Get(edited.tlsVerify, Some(a.tlsVerify)) == Some(TlsAfter(a, target, mode))
    ensures edited == target.(tlsVerify := edited.tlsVerify)
  {
    edited := target;
    if mode == "sso_gate" {
      edited := edited.(tlsVerify := Sent(Some(false)));
    } else if edited.tlsVerify.Sent? {
      edited := edited.(tlsVerify := Sent(Some(Truthy(edited.tlsVerify.value))));
    }
  }

  method ApplyAuthBridgeOnUpdate(updates: AppUpdate, app: App) returns (edited: AppUpdate)
    ensures Get(edited.authMode, Some(app.authMode)) == Some(AuthAfter(app, updates).0)
    ensures Get(edited.ssoBridge, Some(app.ssoBridge)) == Some(AuthAfter(app, updates).1)
    ensures edited == updates.(authMode := edited.authMode, ssoBridge := edited.ssoBridge)
  {
    edited := updates;
    if edited.authMode.Unset? && edited.ssoBridge.Unset? {
      return;
    }
    var auth := NormalizeAuthMode(Get(edited.authMode, Some(app.authMode)));
    if edited.authMode.Sent? {
      edited := edited.(authMode := Sent(Some(auth)));
    }
    edited := edited.(ssoBridge := Sent(Some(
      if auth == "sso" then NormalizeSsoBridge(Get(edited.ssoBridge, Some(app.ssoBridge))) else "trusted_headers")));
  }

  // ----- Rules over every request

  lemma CreateIsOk(path: UrlPath, body: AppCreate)
    requires CreatedApp(path, body).Some?
    ensures AppOk(path, CreatedApp(path, body).value)
  {}

  lemma NormalizeAccessModeFixes(mode: string)
    requires mode in ACCESS_MODES
    ensures NormalizeAccessMode(Some(mode)) == mode
  {}

  predicate NormalName(s: string) {
    s != "" && Trimmed(s) && forall i :: 0 <= i < |s| ==> !('A' <= s[i] <= 'Z')
  }

  lemma NormalNameIsFixed(names: set<string>, fallback: string, s: string)
    requires s in names && NormalName(s)
    ensures NormalizeName(names, fallback, Some(s)) == s
  {
    StripNoop(s);
    LowercaseIsFixed(s);
  }

  lemma NamesAreNormal()
    ensures forall s :: s in AUTH_MODES ==> NormalName(s)
    ensures forall s :: s in SSO_BRIDGES ==> NormalName(s)
  {}

  lemma {:induction false} LowercaseIsFixed(s: string)
    requires forall i :: 0 <= i < |s| ==> !('A' <= s[i] <= 'Z')
    ensures Lower(s) == s
  {
    if s != [] {
      LowercaseIsFixed(s[1..]);
    }
  }

  lemma AuthModeIsNormal(auth: string)
    requires auth in AUTH_MODES
    ensures NormalizeAuthMode(Some(auth)) == auth
  {
    NamesAreNormal();
    NormalNameIsFixed(AUTH_MODES, "sso", auth);
  }

  lemma BridgeIsNormal(bridge: string)
    requires bridge in SSO_BRIDGES
    ensures NormalizeSsoBridge(Some(bridge)) == bridge
  {
    NamesAreNormal();
    NormalNameIsFixed(SSO_BRIDGES, "trusted_headers", bridge);
  }

  // The rules are exact: a row without device control is coherent just when some request creates it.
  lemma CreatedExactlyWhenOk(path: UrlPath, a: App)
    ensures !a.deviceControl && AppOk(path, a) <==> exists body :: CreatedApp(path, body) == Some(a)
  {
    if !a.deviceControl && AppOk(path, a) {
      var body := AppCreate(a.accessMode, a.upstreamUrl, a.publicFqdn, a.authMode, a.ssoBridge, a.credentialMode,
                            a.passwordCache, a.allowActivesync, a.tlsVerify);
      NormalizeAccessModeFixes(a.accessMode);
      AuthModeIsNormal(a.authMode);
      BridgeIsNormal(a.ssoBridge);
      assert CreatedApp(path, body) == Some(a);
    }
    if body :| CreatedApp(path, body) == Some(a) {
      CreateIsOk(path, body);
    }
  }

  predicate AuthOk(auth: string, bridge: string) {
    auth in AUTH_MODES && bridge in SSO_BRIDGES && (auth != "sso" ==> bridge == "trusted_headers")
  }

  // Whatever is sent, a named bridge survives only beside single sign-on.
  lemma AuthStaysCoherent(a: App, u: AppUpdate)
    requires AuthOk(a.authMode, a.ssoBridge)
    ensures AuthOk(AuthAfter(a, u).0, AuthAfter(a, u).1)
  {
    AuthModeIsNormal(a.authMode);
  }

  lemma FlagsStayCoherent(a: App, u: AppUpdate, mode: string)
    requires a.deviceControl ==> a.allowActivesync
    ensures var (allow, control) := FlagsAfter(a, u, mode);
      (control ==> allow) && (allow ==> mode == "subdomain_proxy")
  {}

  // Main result: an accepted partial update of a coherent application is coherent, whatever fields it sends.
  lemma UpdateKeepsOk(path: UrlPath, a: App, u: AppUpdate)
    requires AppOk(path, a) && UpdatedApp(path, a, u).Some?
    ensures AppOk(path, UpdatedApp(path, a, u).value)
  {
    NormalizeAccessModeFixes(a.accessMode);
    AuthStaysCoherent(a, u);
    FlagsStayCoherent(a, u, ModeAfter(a, u));
  }

  // Sending nothing changes nothing.
  lemma EmptyUpdateIsIdentity(path: UrlPath, a: App)
    requires AppOk(path, a)
    ensures UpdatedApp(path, a, EMPTY_UPDATE) == Some(a)
  {
    NormalizeAccessModeFixes(a.accessMode);
  }

  lemma AuthTwice(a: App, b: App, u: AppUpdate)
    requires AuthOk(a.authMode, a.ssoBridge) && (b.authMode, b.ssoBridge) == AuthAfter(a, u)
    ensures AuthAfter(b, u) == AuthAfter(a, u)
  {
    if u.authMode.Sent? || u.ssoBridge.Sent? {
      var auth := NormalizeAuthMode(Get(u.authMode, Some(a.authMode)));
      AuthModeIsNormal(a.authMode);
      assert b.authMode == auth;
      AuthModeIsNormal(auth);
      assert NormalizeAuthMode(Get(u.authMode, Some(b.authMode))) == auth;
      if auth == "sso" && u.ssoBridge.Unset? {
        BridgeIsNormal(b.ssoBridge);
      }
    }
  }

  lemma FlagsTwice(a: App, b: App, u: AppUpdate, mode: string)
    requires a.deviceControl ==> a.allowActivesync
    requires (b.allowActivesync, b.deviceControl) == FlagsAfter(a, u, mode)
    ensures FlagsAfter(b, u, mode) == FlagsAfter(a, u, mode)
  {}

  lemma ModeTwice(a: App, b: App, u: AppUpdate)
    requires a.accessMode in ACCESS_MODES
    requires b.accessMode == if u.accessMode.Sent? then ModeAfter(a, u) else a.accessMode
    ensures ModeAfter(b, u) == ModeAfter(a, u)
  {}

  lemma CacheTwice(a: App, b: App, u: AppUpdate)
    requires CacheAfter(a, u) == Some(b.passwordCache)
    requires Get(u.credentialMode, Some(a.credentialMode)) == Some(b.credentialMode)
    ensures CacheAfter(b, u) == CacheAfter(a, u)
  {}

  // The parts of an update that were computed once are computed alike again.
  lemma SameParts(path: UrlPath, a: App, b: App, u: AppUpdate)
    requires UpdatedApp(path, a, u) == Some(b)
    requires ModeAfter(b, u) == ModeAfter(a, u) && CacheAfter(b, u) == CacheAfter(a, u) && AuthAfter(b, u) == AuthAfter(a, u)
    requires FlagsAfter(b, u, ModeAfter(a, u)) == FlagsAfter(a, u, ModeAfter(a, u))
    ensures UpdatedApp(path, b, u) == Some(b)
  {}

  // Sending the same update twice is sending it once.
  lemma UpdateTwice(path: UrlPath, a: App, u: AppUpdate)
    requires AppOk(path, a) && UpdatedApp(path, a, u).Some?
    ensures UpdatedApp(path, UpdatedApp(path, a, u).value, u) == UpdatedApp(path, a, u)
  {
    var b := UpdatedApp(path, a, u).value;
    ModeTwice(a, b, u);
    CacheTwice(a, b, u);
    AuthTwice(a, b, u);
    FlagsTwice(a, b, u, ModeAfter(a, u));
    SameParts(path, a, b, u);
  }

  // ----- What is sent is what is stored

  // The row with every sent value put in its column; a null empties the public name.
  function Overlay(a: App, u: AppUpdate): App {
    App(SentOr(u.accessMode, a.accessMode), SentOr(u.upstreamUrl, a.upstreamUrl),
        if u.publicFqdn.Sent? then u.publicFqdn.value else a.publicFqdn,
        SentOr(u.authMode, a.authMode), SentOr(u.ssoBridge, a.ssoBridge),
        SentOr(u.credentialMode, a.credentialMode), SentOr(u.passwordCache, a.passwordCache),
        SentOr(u.allowActivesync, a.allowActivesync), a.deviceControl, SentOr(u.tlsVerify, a.tlsVerify))
  }

  function SentOr<T>(p: Patch<T>, stored: T): T { if p.Sent? && p.value.Some? then p.value.value else stored }

  predicate NotNull<T>(p: Patch<T>) { p.Sent? ==> p.value.Some? }

  predicate NoNulls(u: AppUpdate) {
    && NotNull(u.accessMode) && NotNull(u.upstreamUrl) && NotNull(u.authMode) && NotNull(u.ssoBridge)
    && NotNull(u.credentialMode) && NotNull(u.passwordCache) && NotNull(u.allowActivesync) && NotNull(u.tlsVerify)
  }

  // Main result: when what is sent fits together with what is stored, the update is accepted and stores exactly that.
  lemma CoherentUpdateIsStored(path: UrlPath, a: App, u: AppUpdate)
    requires NoNulls(u) && AppOk(path, Overlay(a, u))
    ensures UpdatedApp(path, a, u) == Some(Overlay(a, u))
  {
    var b := Overlay(a, u);
    NormalizeAccessModeFixes(b.accessMode);
    OverlaidAuth(a, u);
    OverlaidFlags(a, u, b.accessMode);
    OverlaidRest(a, u, b.accessMode);
  }

  lemma OverlaidRest(a: App, u: AppUpdate, mode: string)
    requires NoNulls(u)
    requires var b := Overlay(a, u);
      (b.passwordCache ==> b.credentialMode == IdentiteUtilisateur) && (mode == "sso_gate" ==> !b.tlsVerify)
    ensures CacheAfter(a, u) == Some(Overlay(a, u).passwordCache) && TlsAfter(a, u, mode) == Overlay(a, u).tlsVerify
  {}

  lemma OverlaidAuth(a: App, u: AppUpdate)
    requires NoNulls(u) && AuthOk(Overlay(a, u).authMode, Overlay(a, u).ssoBridge)
    ensures AuthAfter(a, u) == (Overlay(a, u).authMode, Overlay(a, u).ssoBridge)
  {
    AuthModeIsNormal(Overlay(a, u).authMode);
    BridgeIsNormal(Overlay(a, u).ssoBridge);
  }

  lemma OverlaidFlags(a: App, u: AppUpdate, mode: string)
    requires NoNulls(u)
    requires var b := Overlay(a, u);
      (b.deviceControl ==> b.allowActivesync) && (b.allowActivesync ==> mode == "subdomain_proxy")
    ensures FlagsAfter(a, u, mode) == (Overlay(a, u).allowActivesync, a.deviceControl)
  {}

  // Column by column: a column that no rule forces takes the value sent, or stays.
  lemma UpdateColumns(path: UrlPath, a: App, u: AppUpdate)
    requires AppOk(path, a) && UpdatedApp(path, a, u).Some?
    ensures var b := UpdatedApp(path, a, u).value;
      && b.upstreamUrl == SentOr(u.upstreamUrl, a.upstreamUrl)
      && b.publicFqdn == (if u.publicFqdn.Sent? then u.publicFqdn.value else a.publicFqdn)
      && b.credentialMode == SentOr(u.credentialMode, a.credentialMode)
      && (u.accessMode.Unset? ==> b.accessMode == a.accessMode)
      && (u.accessMode.Sent? && u.accessMode.value.Some? && u.accessMode.value.value in ACCESS_MODES ==>
           b.accessMode == u.accessMode.value.value)
      && b.passwordCache == (b.credentialMode == IdentiteUtilisateur && SentOr(u.passwordCache, a.passwordCache))
  {
    NormalizeAccessModeFixes(a.accessMode);
  }

  lemma UpdateFlagColumns(path: UrlPath, a: App, u: AppUpdate)
    requires AppOk(path, a) && UpdatedApp(path, a, u).Some?
    ensures var b := UpdatedApp(path, a, u).value;
      && (b.accessMode != "sso_gate" && NotNull(u.tlsVerify) ==> b.tlsVerify == SentOr(u.tlsVerify, a.tlsVerify))
      && (b.accessMode == "subdomain_proxy" && NotNull(u.allowActivesync) ==>
           b.allowActivesync == SentOr(u.allowActivesync, a.allowActivesync))
      && b.deviceControl == (a.deviceControl && b.allowActivesync)
  {
    NormalizeAccessModeFixes(a.accessMode);
  }

  lemma UpdateAuthColumns(path: UrlPath, a: App, u: AppUpdate)
    requires AppOk(path, a) && UpdatedApp(path, a, u).Some?
    ensures var b := UpdatedApp(path, a, u).value;
      && (u.authMode.Unset? ==> b.authMode == a.authMode)
      && (u.authMode.Sent? && u.authMode.value.Some? && u.authMode.value.value in AUTH_MODES ==>
           b.authMode == u.authMode.value.value)
      && (b.authMode == "sso" && u.ssoBridge.Unset? ==> b.ssoBridge == a.ssoBridge)
      && (b.authMode == "sso" && u.ssoBridge.Sent? && u.ssoBridge.value.Some? && u.ssoBridge.value.value in SSO_BRIDGES ==>
           b.ssoBridge == u.ssoBridge.value.value)
  {
    AuthColumns(a, u);
  }

  lemma AuthColumns(a: App, u: AppUpdate)
    requires AuthOk(a.authMode, a.ssoBridge)
    ensures u.authMode.Unset? ==> AuthAfter(a, u).0 == a.authMode
    ensures u.authMode.Sent? && u.authMode.value.Some? && u.authMode.value.value in AUTH_MODES ==>
      AuthAfter(a, u).0 == u.authMode.value.value
    ensures AuthAfter(a, u).0 == "sso" && u.ssoBridge.Unset? ==> AuthAfter(a, u).1 == a.ssoBridge
    ensures AuthAfter(a, u).0 == "sso" && u.ssoBridge.Sent? && u.ssoBridge.value.Some? && u.ssoBridge.value.value in SSO_BRIDGES ==>
      AuthAfter(a, u).1 == u.ssoBridge.value.value
  {
    AuthModeIsNormal(a.authMode);
    BridgeIsNormal(a.ssoBridge);
    if u.authMode.Sent? && u.authMode.value.Some? && u.authMode.value.value in AUTH_MODES {
      AuthModeIsNormal(u.authMode.value.value);
    }
    if u.ssoBridge.Sent? && u.ssoBridge.value.Some? && u.ssoBridge.value.value in SSO_BRIDGES {
      BridgeIsNormal(u.ssoBridge.value.value);
    }
  }

  // An update is accepted exactly when the addresses and mode it leads to pass validation and no mandatory column
  // would hold a null.
  lemma AcceptedExactly(path: UrlPath, a: App, u: AppUpdate)
    requires a.accessMode in ACCESS_MODES
    ensures UpdatedApp(path, a, u).Some?
       <==> (&& NotNull(u.upstreamUrl) && NotNull(u.credentialMode)
             && (SentOr(u.credentialMode, a.credentialMode) == IdentiteUtilisateur ==> NotNull(u.passwordCache))
             && FieldsAccepted(path, ModeAfter(a, u), SentOr(u.upstreamUrl, a.upstreamUrl),
                               if u.publicFqdn.Sent? then u.publicFqdn.value else a.publicFqdn))
  {}

  // A creation stores a coherent request as it was sent.
  lemma CoherentCreationIsStored(path: UrlPath, body: AppCreate)
    requires AppOk(path, AsSent(body))
    ensures CreatedApp(path, body) == Some(AsSent(body))
  {
    NormalizeAccessModeFixes(body.accessMode);
    AuthModeIsNormal(body.authMode);
    BridgeIsNormal(body.ssoBridge);
  }

  function AsSent(body: AppCreate): App {
    App(body.accessMode, body.upstreamUrl, body.publicFqdn, body.authMode, body.ssoBridge, body.credentialMode,
        body.passwordCache, body.allowActivesync, false, body.tlsVerify)
  }

  // A creation that does not fit together keeps what no rule forces.
  lemma CreationColumns(path: UrlPath, body: AppCreate)
    requires CreatedApp(path, body).Some?
    ensures var b := CreatedApp(path, body).value;
      && b.upstreamUrl == body.upstreamUrl && b.publicFqdn == body.publicFqdn && b.credentialMode == body.credentialMode
      && b.passwordCache == (body.passwordCache && b.credentialMode == IdentiteUtilisateur)
      && b.allowActivesync == (body.allowActivesync && b.accessMode == "subdomain_proxy") && !b.deviceControl
      && b.tlsVerify == (body.tlsVerify && b.accessMode != "sso_gate")
      && (body.accessMode in ACCESS_MODES ==> b.accessMode == body.accessMode)
  {}

  // Names that are not of a list: old access modes are mapped, any other name falls back.
  lemma UnknownNamesFallBack(s: string)
    requires s !in ACCESS_MODES && Lower(Strip(s)) !in AUTH_MODES && Lower(Strip(s)) !in SSO_BRIDGES
    ensures NormalizeAccessMode(Some(s)) == if s == "subdomain" then "subdomain_proxy" else "sso_gate"
    ensures NormalizeAuthMode(Some(s)) == "sso" && NormalizeSsoBridge(Some(s)) == "trusted_headers"
    ensures NormalizeAccessMode(None) == "sso_gate" && NormalizeAuthMode(None) == "sso" && NormalizeSsoBridge(None) == "trusted_headers"
  {}

  // What validation asks for, in one place: an address always, and for the two public modes a plain name and an
  // address without a path.
  lemma ValidationRefuses(path: UrlPath, mode: string, upstream: string, fqdn: Option<string>)
    requires mode in ACCESS_MODES
    ensures !FieldsAccepted(path, mode, upstream, fqdn)
       <==> (|| Strip(upstream) == ""
             || (mode in {"subdomain_proxy", "public_proxy"}
                 && (|| fqdn.None? || Strip(fqdn.value) == "" || ' ' in Strip(fqdn.value) || '/' in Strip(fqdn.value)
                     || path(Strip(upstream)) !in {"", "/"})))
  {}

  // ----- Runs

  datatype Request = Create(slug: string, create: AppCreate, pathsOk: bool) | Update(slug: string, update: AppUpdate, pathsOk: bool) | Delete(slug: string)

  function Handle(path: UrlPath, apps: map<string, App>, r: Request): map<string, App> {
    match r
    case Create(slug, body, pathsOk) =>
      if slug !in apps && pathsOk && CreatedApp(path, body).Some? then apps[slug := CreatedApp(path, body).value] else apps
    case Update(slug, body, pathsOk) =>
      if slug in apps && pathsOk && UpdatedApp(path, apps[slug], body).Some? then
        apps[slug := UpdatedApp(path, apps[slug], body).value]
      else apps
    case Delete(slug) => apps - {slug}
  }

  function HandleAll(path: UrlPath, apps: map<string, App>, requests: seq<Request>): map<string, App>
    decreases |requests|
  {
    if requests == [] then apps else HandleAll(path, Handle(path, apps, requests[0]), requests[1..])
  }

  predicate AllOk(path: UrlPath, apps: map<string, App>) { forall s :: s in apps ==> AppOk(path, apps[s]) }

  lemma HandleKeepsOk(path: UrlPath, apps: map<string, App>, r: Request)
    requires AllOk(path, apps)
    ensures AllOk(path, Handle(path, apps, r))
  {
    match r {
      case Create(_, body, _) =>
        if CreatedApp(path, body).Some? {
          CreateIsOk(path, body);
        }
      case Update(slug, body, _) =>
        if slug in apps && UpdatedApp(path, apps[slug], body).Some? {
          UpdateKeepsOk(path, apps[slug], body);
        }
      case Delete(_) =>
    }
  }

  // Main result: every application reachable from an empty catalogue by any requests is coherent.
  lemma {:induction false} ReachableAppsAreOk(path: UrlPath, apps: map<string, App>, requests: seq<Request>)
    requires AllOk(path, apps)
    ensures AllOk(path, HandleAll(path, apps, requests))
    decreases |requests|
  {
    if requests != [] {
      HandleKeepsOk(path, apps, requests[0]);
      ReachableAppsAreOk(path, Handle(path, apps, requests[0]), requests[1..]);
    }
  }
}
