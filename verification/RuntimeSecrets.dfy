/** Portal runtime secrets (app/runtime_secrets_service.py): secrets stored encrypted in one
    settings row, optional environment overrides, and a per-process cache.

    Encryption is perfect: a stored value is blank, cannot be decrypted, or decrypts to what
    was encrypted. The environment is fixed during a run. */
module RuntimeSecrets {
  import opened PyText

  datatype Stored = Blank | Corrupt | Enc(plain: string)

  datatype Row = Row(hop: Stored, breakglass: Stored, oidc: Stored, signing: Stored)

  datatype Caches = Caches(
    hop: Option<string>, breakglass: Option<string>, oidc: Option<string>, signing: Option<string>)

  datatype Env = Env(hop: string, breakglass: string, oidc: string, signing: string, token: string)

  datatype Secret = Hop | Breakglass | Oidc | Signing

  // The four values the generator would draw.
  datatype Fresh = Fresh(hop: string, breakglass: string, oidc: string, signing: string)

  datatype State = State(row: Row, caches: Caches)

  const NO_CACHES := Caches(None, None, None, None)

  function NonBlank(s: string): Option<string> { if Strip(s) == "" then None else Some(Strip(s)) }

  // A stored secret as the services read it.
  function Read(s: Stored): Option<string> { if s.Enc? then NonBlank(s.plain) else None }

  // The stored signing secret; a value equal to the internal token does not count.
  function ReadSigning(row: Row, env: Env): Option<string> {
    var s := Read(row.signing);
    if s.Some? && Strip(env.token) != "" && s.value == Strip(env.token) then None else s
  }

  function Or(a: Option<string>, b: string): string { if a.Some? then a.value else b }

  // ----- One ensure

  predicate Missing(row: Row, env: Env, s: Secret) {
    match s
    case Hop => Read(row.hop).None?
    case Breakglass => Read(row.breakglass).None?
    case Oidc => Read(row.oidc).None?
    case Signing => ReadSigning(row, env).None?
  }

  function EnvValue(env: Env, s: Secret): Option<string> {
    match s
    case Hop => NonBlank(env.hop)
    case Breakglass => NonBlank(env.breakglass)
    case Oidc => NonBlank(env.oidc)
    case Signing => NonBlank(env.signing)
  }

  // What an ensure does to one secret, and its report over the four.
  datatype Change = Kept | CreatedNow | MigratedFromEnv

  datatype Report = Report(hop: Change, breakglass: Change, oidc: Change, signing: Change)

  const QUIET := Report(Kept, Kept, Kept, Kept)

  function HowOf(row: Row, env: Env, s: Secret): Change {
    if !Missing(row, env, s) then Kept else if EnvValue(env, s).Some? then MigratedFromEnv else CreatedNow
  }

  function ReportOf(row: Row, env: Env): Report {
    Report(HowOf(row, env, Hop), HowOf(row, env, Breakglass), HowOf(row, env, Oidc), HowOf(row, env, Signing))
  }

  function EnsuredRow(row: Row, env: Env, f: Fresh): Row {
    Row(
      if Missing(row, env, Hop) then Enc(Or(EnvValue(env, Hop), f.hop)) else row.hop,
      if Missing(row, env, Breakglass) then Enc(Or(EnvValue(env, Breakglass), f.breakglass)) else row.breakglass,
      if Missing(row, env, Oidc) then Enc(Or(EnvValue(env, Oidc), f.oidc)) else row.oidc,
      if Missing(row, env, Signing) then Enc(Or(EnvValue(env, Signing), f.signing)) else row.signing)
  }

  // The caches after an ensure; the breakglass and signing caches prefer the environment.
  function EnsuredCaches(row: Row, env: Env, f: Fresh): Caches {
    var r := EnsuredRow(row, env, f);
    Caches(
      Read(r.hop),
      if EnvValue(env, Breakglass).Some? then EnvValue(env, Breakglass) else Read(r.breakglass),
      Read(r.oidc),
      if EnvValue(env, Signing).Some? then EnvValue(env, Signing) else Read(r.signing))
  }

  // A failing commit leaves the row, but the caches are already set.
  function Ensured(st: State, env: Env, f: Fresh, commitOk: bool): State {
    State(if commitOk then EnsuredRow(st.row, env, f) else st.row, EnsuredCaches(st.row, env, f))
  }

  // ----- One resolution

  function ResolvedHop(st: State, env: Env, withDb: bool): string {
    if EnvValue(env, Hop).Some? then EnvValue(env, Hop).value
    else if st.caches.hop.Some? && st.caches.hop.value != "" then st.caches.hop.value
    else if withDb && Read(st.row.hop).Some? then Read(st.row.hop).value
    else ""
  }

  function AfterResolveHop(st: State, env: Env, withDb: bool): State {
    if EnvValue(env, Hop).None? && !(st.caches.hop.Some? && st.caches.hop.value != "") && withDb && Read(st.row.hop).Some?
    then st.(caches := st.caches.(hop := Read(st.row.hop)))
    else st
  }

  // ----- The module with its process-wide globals

  class SecretsModule {
    const env: Env
    var row: Row
    var cachedHop: Option<string>
    var cachedBreakglass: Option<string>
    var cachedOidc: Option<string>
    var cachedSigning: Option<string>

    constructor (env: Env, row: Row)
      ensures this.env == env && Value() == State(row, NO_CACHES)
    {
      this.env, this.row := env, row;
      cachedHop, cachedBreakglass, cachedOidc, cachedSigning := None, None, None, None;
    }

    ghost function Value(): State
      reads this
    {
      State(row, Caches(cachedHop, cachedBreakglass, cachedOidc, cachedSigning))
    }

    method Restart()
      modifies this
      ensures Value() == State(old(row), NO_CACHES)
    {
      cachedHop, cachedBreakglass, cachedOidc, cachedSigning := None, None, None, None;
    }

    method ResolveSessionHopSecret(withDb: bool) returns (secret: string)
      modifies this
      ensures secret == ResolvedHop(old(Value()), env, withDb)
      ensures Value() == AfterResolveHop(old(Value()), env, withDb)
    {
      var fromEnv := NonBlank(env.hop);
      if fromEnv.Some? {
        return fromEnv.value;
      }
      if cachedHop.Some? && cachedHop.value != "" {
        return cachedHop.value;
      }
      var plain := if withDb then Read(row.hop) else None;
      if plain.Some? {
        StripIdempotent(row.hop.plain);
        cachedHop := NonBlank(plain.value);
        return plain.value;
      }
      return "";
    }

    // Store a missing secret: from the environment, else the drawn one.
    method EnsureStored(stored: Stored, current: Option<string>, fromEnv: Option<string>, drawn: string)
      returns (next: Stored, how: Change)
      ensures next == if current.None? then Enc(Or(fromEnv, drawn)) else stored
      ensures how == if current.Some? then Kept else if fromEnv.Some? then MigratedFromEnv else CreatedNow
    {
      if current.Some? {
        return stored, Kept;
      }
      if fromEnv.Some? {
        return Enc(fromEnv.value), MigratedFromEnv;
      }
      return Enc(drawn), CreatedNow;
    }

    method EnsureHop(drawn: string) returns (next: Stored, how: Change)
      requires NonBlank(drawn) == Some(drawn)
      modifies this`cachedHop
      ensures next == if Missing(row, env, Hop) then Enc(Or(EnvValue(env, Hop), drawn)) else row.hop
      ensures how == HowOf(row, env, Hop) && cachedHop == Read(next)
    {
      StripFacts(row, env);
      var hopDb, hopEnv := Read(row.hop), NonBlank(env.hop);
      next, how := EnsureStored(row.hop, hopDb, hopEnv, drawn);
      cachedHop := if hopDb.Some? then NonBlank(hopDb.value) else NonBlank(Or(hopEnv, drawn));
    }

    method EnsureOidc(drawn: string) returns (next: Stored, how: Change)
      requires NonBlank(drawn) == Some(drawn)
      modifies this`cachedOidc
      ensures next == if Missing(row, env, Oidc) then Enc(Or(EnvValue(env, Oidc), drawn)) else row.oidc
      ensures how == HowOf(row, env, Oidc) && cachedOidc == Read(next)
    {
      StripFacts(row, env);
      var oidcDb, oidcEnv := Read(row.oidc), NonBlank(env.oidc);
      next, how := EnsureStored(row.oidc, oidcDb, oidcEnv, drawn);
      cachedOidc := if oidcDb.Some? then NonBlank(oidcDb.value) else NonBlank(Or(oidcEnv, drawn));
    }

    method EnsureBreakglass(drawn: string) returns (next: Stored, how: Change)
      requires NonBlank(drawn) == Some(drawn)
      modifies this`cachedBreakglass
      ensures next == if Missing(row, env, Breakglass) then Enc(Or(EnvValue(env, Breakglass), drawn)) else row.breakglass
      ensures how == HowOf(row, env, Breakglass)
      ensures cachedBreakglass == if EnvValue(env, Breakglass).Some? then EnvValue(env, Breakglass) else Read(next)
    {
      StripFacts(row, env);
      var bgEnv, bgUi := NonBlank(env.breakglass), Read(row.breakglass);
      next, how := EnsureStored(row.breakglass, bgUi, bgEnv, drawn);
      if bgEnv.None? && bgUi.None? {
        cachedBreakglass := NonBlank(drawn);
      } else if bgEnv.Some? {
        cachedBreakglass := NonBlank(bgEnv.value);
      } else {
        cachedBreakglass := NonBlank(bgUi.value);
      }
    }

    // Never keep a signing secret equal to the internal token.
    method EnsureSigning(drawn: string) returns (next: Stored, how: Change)
      requires NonBlank(drawn) == Some(drawn)
      modifies this`cachedSigning
      ensures next == if Missing(row, env, Signing) then Enc(Or(EnvValue(env, Signing), drawn)) else row.signing
      ensures how == HowOf(row, env, Signing)
      ensures cachedSigning == if EnvValue(env, Signing).Some? then EnvValue(env, Signing) else Read(next)
    {
      StripFacts(row, env);
      var signDb, signEnv, token := Read(row.signing), NonBlank(env.signing), NonBlank(env.token);
      if signDb.Some? && token.Some? && signDb.value == token.value {
        signDb := None;
      }
      next, how := EnsureStored(row.signing, signDb, signEnv, drawn);
      cachedSigning := NonBlank(Or(signEnv, if signDb.Some? then signDb.value else drawn));
    }

    method EnsurePortalRuntimeSecrets(f: Fresh, commitOk: bool) returns (report: Report)
      requires GoodFresh(f, env)
      modifies this
      ensures Value() == Ensured(old(Value()), env, f, commitOk)
      ensures report == ReportOf(old(row), env)
    {
      var hop, hopHow := EnsureHop(f.hop);
      var breakglass, bgHow := EnsureBreakglass(f.breakglass);
      var oidc, oidcHow := EnsureOidc(f.oidc);
      var signing, signHow := EnsureSigning(f.signing);
      report := Report(hopHow, bgHow, oidcHow, signHow);
      if commitOk {
        row := Row(hop, breakglass, oidc, signing);
      }
    }
  }

  // Drawn secrets are printable, without blanks around them, and differ from the internal token.
  predicate GoodFresh(f: Fresh, env: Env) {
    && NonBlank(f.hop) == Some(f.hop) && NonBlank(f.breakglass) == Some(f.breakglass)
    && NonBlank(f.oidc) == Some(f.oidc) && NonBlank(f.signing) == Some(f.signing)
    && f.signing != Strip(env.token)
  }

  lemma NonBlankIdempotent(s: string)
    ensures NonBlank(s).Some? ==> NonBlank(NonBlank(s).value) == NonBlank(s)
  {
    StripIdempotent(s);
  }

  lemma StripFacts(row: Row, env: Env)
    ensures forall s :: s in {row.hop, row.breakglass, row.oidc, row.signing} && Read(s).Some? ==>
      NonBlank(Read(s).value) == Read(s)
    ensures forall s :: EnvValue(env, s).Some? ==> NonBlank(EnvValue(env, s).value) == EnvValue(env, s)
  {
    forall s | s in {row.hop, row.breakglass, row.oidc, row.signing} && Read(s).Some?
      ensures NonBlank(Read(s).value) == Read(s)
    {
      NonBlankIdempotent(s.plain);
    }
    NonBlankIdempotent(env.hop);
    NonBlankIdempotent(env.breakglass);
    NonBlankIdempotent(env.oidc);
    NonBlankIdempotent(env.signing);
  }

  // ----- Runs of restarts, ensures and resolutions

  datatype Step = Ensure(drawn: Fresh, commitOk: bool) | Resolve(withDb: bool) | Restart

  function Apply(st: State, env: Env, step: Step): State {
    match step
    case Ensure(f, commitOk) => Ensured(st, env, f, commitOk)
    case Resolve(withDb) => AfterResolveHop(st, env, withDb)
    case Restart => State(st.row, NO_CACHES)
  }

  function Run(st: State, env: Env, steps: seq<Step>): State
    decreases |steps|
  {
    if steps == [] then st else Run(Apply(st, env, steps[0]), env, steps[1..])
  }

  ghost predicate GoodRun(steps: seq<Step>, env: Env, commits: bool) {
    forall i :: 0 <= i < |steps| && steps[i].Ensure? ==>
      GoodFresh(steps[i].drawn, env) && (commits ==> steps[i].commitOk)
  }

  // Main result: once a hop or OIDC secret can be read from the row it never changes, over any run, even
  // one with failing commits.
  lemma {:induction false} StoredSecretsNeverChange(st: State, env: Env, steps: seq<Step>)
    ensures var last := Run(st, env, steps);
      && (Read(st.row.hop).Some? ==> last.row.hop == st.row.hop)
      && (Read(st.row.oidc).Some? ==> last.row.oidc == st.row.oidc)
    decreases |steps|
  {
    if steps != [] {
      StoredSecretsNeverChange(Apply(st, env, steps[0]), env, steps[1..]);
    }
  }

  // Each cache is empty or agrees with its source.
  ghost predicate CachesAgree(st: State, env: Env) {
    && (st.caches.hop.Some? ==> st.caches.hop == Read(st.row.hop))
    && (st.caches.oidc.Some? ==> st.caches.oidc == Read(st.row.oidc))
    && (st.caches.breakglass.Some? ==>
         st.caches.breakglass ==
           if EnvValue(env, Breakglass).Some? then EnvValue(env, Breakglass) else Read(st.row.breakglass))
    && (st.caches.signing.Some? ==>
         st.caches.signing ==
           if EnvValue(env, Signing).Some? then EnvValue(env, Signing) else ReadSigning(st.row, env))
  }

  // Main result: over any run whose commits succeed, each cache stays empty or in agreement with its source.
  lemma {:induction false} CachesAgreeAlways(st: State, env: Env, steps: seq<Step>)
    requires CachesAgree(st, env) && GoodRun(steps, env, true)
    ensures CachesAgree(Run(st, env, steps), env)
    decreases |steps|
  {
    if steps != [] {
      StripFacts(st.row, env);
      assert GoodRun(steps[1..], env, true) by {
        assert forall i :: 0 <= i < |steps[1..]| ==> steps[1..][i] == steps[i + 1];
      }
      CachesAgreeAlways(Apply(st, env, steps[0]), env, steps[1..]);
    }
  }

  // When the commit of an ensure fails, its caches agree with their sources exactly if nothing was drawn
  // and no hop or OIDC secret had to be migrated.
  lemma CommitFailure(st: State, env: Env, f: Fresh)
    requires GoodFresh(f, env)
    ensures var report := ReportOf(st.row, env);
      var harmless := report.hop.Kept? && report.oidc.Kept?
                      && !report.breakglass.CreatedNow? && !report.signing.CreatedNow?;
      CachesAgree(Ensured(st, env, f, false), env) <==> harmless
  {
    StripFacts(st.row, env);
  }

  // The environment would store the internal token as the signing secret.
  predicate SigningEnvIsToken(env: Env) {
    Strip(env.token) != "" && Strip(env.signing) == Strip(env.token)
  }

  // Main result: a second ensure creates and migrates nothing exactly when the first one did not have to store
  // a signing secret that the environment sets to the internal token.
  lemma SecondEnsureIsQuiet(row: Row, env: Env, f: Fresh)
    requires GoodFresh(f, env)
    ensures var after := EnsuredRow(row, env, f);
      ReportOf(after, env) == QUIET <==> !(SigningEnvIsToken(env) && ReadSigning(row, env).None?)
  {
    StripFacts(row, env);
    var after := EnsuredRow(row, env, f);
  }

  // In that case every ensure of every run stores it again: the signing secret never settles.
  lemma {:induction false} TokenAsSigningNeverSettles(st: State, env: Env, steps: seq<Step>)
    requires SigningEnvIsToken(env) && ReadSigning(st.row, env).None?
    ensures var last := Run(st, env, steps);
      ReadSigning(last.row, env).None? && ReportOf(last.row, env).signing.MigratedFromEnv?
    decreases |steps|
  {
    StripFacts(st.row, env);
    if steps != [] {
      TokenAsSigningNeverSettles(Apply(st, env, steps[0]), env, steps[1..]);
    }
  }

  // A token set as the signing secret: no ensure of the run is quiet.
  lemma TokenAsSigningExample(steps: seq<Step>)
    ensures var env := Env("", "", "", "t", "t");
      ReportOf(Run(State(Row(Blank, Blank, Blank, Blank), NO_CACHES), env, steps).row, env) != QUIET
  {
    var env := Env("", "", "", "t", "t");
    assert Strip("t") == "t";
    TokenAsSigningNeverSettles(State(Row(Blank, Blank, Blank, Blank), NO_CACHES), env, steps);
  }

  // An ensure on an empty row whose commit fails: sessions are sealed with a hop secret that was never stored.
  lemma FailedCommitSealsWithUnstored()
    ensures var env, row := Env("", "", "", "", ""), Row(Blank, Blank, Blank, Blank);
      var st := Ensured(State(row, NO_CACHES), env, Fresh("h", "b", "o", "s"), false);
      st.row == row && ResolvedHop(st, env, true) == "h" && !CachesAgree(st, env)
  {
    assert Strip("h") == "h" && Strip("") == "";
  }

  // The hop cache is empty or holds the stored secret, over any run from a readable one, failing commits included.
  lemma {:induction false} HopCacheAgrees(st: State, env: Env, steps: seq<Step>)
    requires Read(st.row.hop).Some? && (st.caches.hop.Some? ==> st.caches.hop == Read(st.row.hop))
    ensures var last := Run(st, env, steps);
      last.row.hop == st.row.hop && (last.caches.hop.Some? ==> last.caches.hop == Read(st.row.hop))
    decreases |steps|
  {
    if steps != [] {
      HopCacheAgrees(Apply(st, env, steps[0]), env, steps[1..]);
    }
  }

  // The hop secret that sessions are sealed with is the same for the whole life of the stored row, whether
  // commits succeed or fail.
  lemma HopSecretIsStable(st: State, env: Env, steps: seq<Step>, withDb: bool)
    requires Read(st.row.hop).Some? && EnvValue(env, Hop).None?
    requires st.caches.hop.Some? ==> st.caches.hop == Read(st.row.hop)
    ensures var secret := ResolvedHop(Run(st, env, steps), env, withDb);
      secret == Read(st.row.hop).value || (secret == "" && !withDb)
  {
    HopCacheAgrees(st, env, steps);
  }

  // ----- What one call does

  // A resolution: a set environment wins over cache and row, a filled cache over the row, and the row fills it.
  lemma HopPrecedence(st: State, env: Env, withDb: bool)
    ensures var secret, after := ResolvedHop(st, env, withDb), AfterResolveHop(st, env, withDb);
      var cached := st.caches.hop.Some? && st.caches.hop.value != "";
      if Strip(env.hop) != "" then secret == Strip(env.hop) && after == st
      else if cached then secret == st.caches.hop.value && after == st
      else if withDb && Read(st.row.hop).Some? then
        secret == Strip(st.row.hop.plain) && after == st.(caches := st.caches.(hop := Some(secret)))
      else secret == "" && after == st
  {}

  // Whatever happened before, a set environment is what sessions are sealed with.
  lemma EnvHopWins(st: State, env: Env, steps: seq<Step>, withDb: bool)
    requires Strip(env.hop) != ""
    ensures ResolvedHop(Run(st, env, steps), env, withDb) == Strip(env.hop)
  {}

  // What stays, what the environment brings and what is drawn; a signing secret equal to the token counts as missing.
  lemma EnsureStores(row: Row, env: Env, f: Fresh)
    requires GoodFresh(f, env)
    ensures var after := EnsuredRow(row, env, f);
      var tokenSigns := Strip(env.token) != "" && Read(row.signing) == Some(Strip(env.token));
      && (if Read(row.hop).Some? then after.hop == row.hop
          else Read(after.hop) == Some(if Strip(env.hop) != "" then Strip(env.hop) else f.hop))
      && (if Read(row.oidc).Some? then after.oidc == row.oidc
          else Read(after.oidc) == Some(if Strip(env.oidc) != "" then Strip(env.oidc) else f.oidc))
      && (if Read(row.breakglass).Some? then after.breakglass == row.breakglass
          else Read(after.breakglass) == Some(if Strip(env.breakglass) != "" then Strip(env.breakglass) else f.breakglass))
      && (if Read(row.signing).Some? && !tokenSigns then after.signing == row.signing
          else Read(after.signing) == Some(if Strip(env.signing) != "" then Strip(env.signing) else f.signing))
  {
    StripFacts(row, env);
  }

  // A report says kept exactly of readable secrets, migrated exactly of missing ones that the environment sets.
  lemma ReportTells(row: Row, env: Env)
    ensures var r := ReportOf(row, env);
      var tokenSigns := Strip(env.token) != "" && Read(row.signing) == Some(Strip(env.token));
      && (r.hop.Kept? <==> Read(row.hop).Some?) && (r.oidc.Kept? <==> Read(row.oidc).Some?)
      && (r.breakglass.Kept? <==> Read(row.breakglass).Some?)
      && (r.signing.Kept? <==> Read(row.signing).Some? && !tokenSigns)
      && (r.hop.MigratedFromEnv? <==> Read(row.hop).None? && Strip(env.hop) != "")
      && (r.oidc.MigratedFromEnv? <==> Read(row.oidc).None? && Strip(env.oidc) != "")
      && (r.breakglass.MigratedFromEnv? <==> Read(row.breakglass).None? && Strip(env.breakglass) != "")
      && (r.signing.MigratedFromEnv? <==> !(Read(row.signing).Some? && !tokenSigns) && Strip(env.signing) != "")
  {}

  // After an ensure every cache is filled: hop and OIDC from the new row, the other two from the environment first.
  lemma EnsureFillsCaches(row: Row, env: Env, f: Fresh)
    requires GoodFresh(f, env)
    ensures var after, c := EnsuredRow(row, env, f), EnsuredCaches(row, env, f);
      && c.hop == Read(after.hop) && c.hop.Some? && c.oidc == Read(after.oidc) && c.oidc.Some?
      && c.breakglass == (if Strip(env.breakglass) != "" then Some(Strip(env.breakglass)) else Read(after.breakglass))
      && c.breakglass.Some?
      && c.signing == (if Strip(env.signing) != "" then Some(Strip(env.signing)) else Read(after.signing))
      && c.signing.Some?
  {
    StripFacts(row, env);
  }
}
