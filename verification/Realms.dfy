/** The OIDC realm registry: admin handlers (app/admin/realms.py), the token API
    (app/realm_service.py) and the port allocator (app/admin/ports.py).

    A commit is atomic; the unique constraints on slug and port refuse a flush. Form fields
    that no rule below reads are left out; `Form` says how the checks on them came out. */
module Realms {
  import opened PyText
  import opened RealmForms

  datatype TestStatus = Untested | TestOk | TestError

  // What a connection test is made with.
  datatype Conn = Conn(issuer: string, client: string, secret: string)

  datatype Access = Access(requests: bool, emails: bool)

  datatype Login = Login(mfa: bool, shown: bool, text: string)

  const NO_ACCESS := Access(false, false)

  // Which fields of the provisioning service account are there.
  datatype Account = Account(id: bool, secret: bool)

  // `tested` is a history variable that no column holds: what the last test was made with.
  datatype Realm = Realm(
    slug: string, port: int, isDefault: bool, enabled: bool, lastTest: TestStatus,
    conn: Conn, tested: Option<Conn>, access: Access, login: Login, account: Account, provisioning: bool)

  type Rows = map<nat, Realm>

  // The native OIDC client block of a form: empty, accepted, or refused.
  datatype BffBlock = BffEmpty | BffGood | BffBad

  // A form as it is sent, and how what is not modelled comes out.
  datatype Form = Form(
    slug: string, port: int, issuer: string, client: string, secret: string,
    isDefault: bool, access: Access, login: Login,
    activate: bool,              // "enabled" is ticked
    account: Account,            // the service-account fields that are not blank
    provisioning: bool,
    restValid: bool,             // the schema accepts the other fields
    keyReads: bool,              // the stored client secret can be decrypted
    testOk: bool,                // outcome of the connection test, if one is made
    secretsOk: bool,             // encryption and the synchronisation account are accepted
    bff: BffBlock
  )

  datatype Response = Success | NotFound | Refused

  // ----- Invariant

  ghost predicate SlugsDistinct(rows: Rows) {
    forall i, j :: i in rows && j in rows && i != j ==> rows[i].slug != rows[j].slug
  }

  ghost predicate PortsDistinct(rows: Rows) {
    forall i, j :: i in rows && j in rows && i != j ==> rows[i].port != rows[j].port
  }

  ghost predicate OneDefault(rows: Rows) {
    forall i, j :: i in rows && j in rows && rows[i].isDefault && rows[j].isDefault ==> i == j
  }

  ghost predicate Inv(rows: Rows) { SlugsDistinct(rows) && PortsDistinct(rows) && OneDefault(rows) }

  // ----- Shared pieces

  predicate SlugTaken(rows: Rows, slug: string) { exists i :: i in rows && rows[i].slug == slug }

  // Some realm other than `except` has the port.
  predicate PortTaken(rows: Rows, port: int, except: Option<nat>) {
    exists i :: i in rows && rows[i].port == port && Some(i) != except
  }

  // `_apply_default_realm`: the other rows lose the flag only when this one takes it.
  function ApplyDefault(rows: Rows, id: nat, isDefault: bool): Rows
    requires id in rows
  {
    map i | i in rows ::
      if i == id then rows[i].(isDefault := isDefault)
      else if isDefault then rows[i].(isDefault := false)
      else rows[i]
  }

  // ----- What the schemas make of a form

  predicate SharedValid(f: Form) { f.restValid && IssuerOk(f.issuer) && ClientOk(f.client) && 4180 <= f.port <= 4299 }

  predicate CreateValid(f: Form) { SharedValid(f) && SlugOk(f.slug) && SecretOk(f.secret) }

  predicate UpdateValid(f: Form) { SharedValid(f) && |f.secret| <= MAX_SECRET }

  function SlugOf(f: Form): string { Lower(Strip(f.slug)) }

  // Issuer and client are normalised, the secret is taken as sent.
  function SentConn(f: Form): Conn { Conn(NormIssuer(f.issuer), Strip(f.client), f.secret) }

  // Access requests need provisioning with a complete service account.
  predicate AccessAllowed(row: Realm, access: Access) {
    access.requests ==> row.provisioning && row.account.id && row.account.secret
  }

  // ----- Admin create

  predicate CreateChecksPass(rows: Rows, f: Form) {
    && CreateValid(f) && !SlugTaken(rows, SlugOf(f)) && !PortTaken(rows, f.port, None)
    && (f.activate ==> f.testOk) && f.secretsOk
    && f.account.id == f.account.secret && (f.provisioning ==> f.account.id)
  }

  // A realm as its columns start out.
  function NewRealm(slug: string, port: int, isDefault: bool, conn: Conn): Realm {
    Realm(slug, port, isDefault, false, Untested, conn, None, NO_ACCESS, Login(true, true, ""), Account(false, false), false)
  }

  // The row before the access-request block.
  function CreatedRow(f: Form): Realm {
    NewRealm(SlugOf(f), f.port, f.isDefault, SentConn(f)).(
      enabled := f.activate, lastTest := if f.activate then TestOk else Untested,
      tested := if f.activate then Some(SentConn(f)) else None,
      login := f.login, account := f.account, provisioning := f.provisioning)
  }

  function StagedCreation(rows: Rows, id: nat, f: Form): Rows { ApplyDefault(rows[id := CreatedRow(f)], id, f.isDefault) }

  // An accepted client block commits (its audit entry does), so a later refusal undoes nothing; the
  // access-request columns are set only once their block is accepted.
  function Create(rows: Rows, id: nat, f: Form): (Rows, Response) {
    if !CreateChecksPass(rows, f) || f.bff.BffBad? then (rows, Refused)
    else
      var staged := StagedCreation(rows, id, f);
      if AccessAllowed(CreatedRow(f), f.access) then (staged[id := staged[id].(access := f.access)], Success)
      else (if f.bff.BffGood? then staged else rows, Refused)
  }

  // ----- Admin update

  // A given secret is stripped; else the stored one serves, when it can be read.
  function Resolve(given: Option<string>, stored: string, keyReads: bool): Option<string> {
    if given.Some? && Strip(given.value) != "" then Some(Strip(given.value))
    else if keyReads && stored != "" then Some(stored)
    else None
  }

  // The settings after the update: a secret that is not blank is stored as it was sent.
  function ConnAfter(row: Realm, f: Form): Conn {
    SentConn(f).(secret := if Strip(f.secret) == "" then row.conn.secret else f.secret)
  }

  // The settings an activation tests.
  function UpdateTested(row: Realm, f: Form): Conn {
    var secret := Resolve(Some(f.secret), row.conn.secret, f.keyReads);
    SentConn(f).(secret := if secret.Some? then secret.value else "")
  }

  predicate Retests(row: Realm, f: Form) { f.activate && row.lastTest != TestOk }

  function AccountAfter(row: Realm, f: Form): Account {
    if f.account.id || f.account.secret then Account(true, row.account.secret || f.account.secret) else row.account
  }

  predicate AccountAccepted(row: Realm, f: Form) {
    && (f.account.id || f.account.secret ==> f.account.id && (f.account.secret || row.account.secret))
    && (f.provisioning ==> AccountAfter(row, f).id && AccountAfter(row, f).secret)
  }

  predicate UpdateChecksPass(rows: Rows, id: nat, f: Form)
    requires id in rows
  {
    && UpdateValid(f) && !PortTaken(rows, f.port, Some(id))
    && (Retests(rows[id], f) ==> Resolve(Some(f.secret), rows[id].conn.secret, f.keyReads).Some? && f.testOk)
    && f.secretsOk && AccountAccepted(rows[id], f)
  }

  // The row before the access-request block.
  function UpdatedRow(row: Realm, f: Form): Realm {
    row.(port := f.port, enabled := row.enabled || f.activate, conn := ConnAfter(row, f),
         lastTest := if f.activate then TestOk else row.lastTest,
         tested := if Retests(row, f) then Some(UpdateTested(row, f)) else row.tested,
         account := AccountAfter(row, f), provisioning := f.provisioning)
  }

  function StagedUpdate(rows: Rows, id: nat, f: Form): Rows
    requires id in rows
  {
    ApplyDefault(rows[id := UpdatedRow(rows[id], f)], id, f.isDefault)
  }

  function Update(rows: Rows, id: nat, f: Form): (Rows, Response) {
    if id !in rows then (rows, NotFound)
    else if !UpdateChecksPass(rows, id, f) || f.bff.BffBad? then (rows, Refused)
    else
      var staged := StagedUpdate(rows, id, f);
      if AccessAllowed(UpdatedRow(rows[id], f), f.access)
      then (staged[id := staged[id].(access := f.access, login := f.login)], Success)
      else (if f.bff.BffGood? then staged else rows, Refused)
  }

  // ----- The other handlers

  function Enable(rows: Rows, id: nat): (Rows, Response) {
    if id !in rows then (rows, NotFound)
    else if rows[id].lastTest != TestOk then (rows, Refused)
    else (rows[id := rows[id].(enabled := true)], Success)
  }

  function Disable(rows: Rows, id: nat): (Rows, Response) {
    if id !in rows then (rows, NotFound) else (rows[id := rows[id].(enabled := false)], Success)
  }

  // A test request: what its throttle, its body and the stored secret allow, what the body overrides, and how
  // the connection test comes out.
  datatype TestCall = TestCall(
    throttled: bool, jsonOk: bool, typesOk: bool, keyReads: bool,
    issuer: Option<string>, client: Option<string>, secret: Option<string>, ok: bool)

  function Given(sent: Option<string>, stored: string): string { if sent.Some? && sent.value != "" then sent.value else stored }

  // The settings under test are those of the body, the stored ones where it gives none, all normalised.
  function TestedConn(row: Realm, t: TestCall): Conn {
    var secret := Resolve(t.secret, row.conn.secret, t.keyReads);
    Conn(NormIssuer(Given(t.issuer, row.conn.issuer)), Strip(Given(t.client, row.conn.client)),
         if secret.Some? then secret.value else "")
  }

  predicate TestRuns(row: Realm, t: TestCall) {
    && !t.throttled && t.jsonOk && t.typesOk
    && Resolve(t.secret, row.conn.secret, t.keyReads).Some? && SecretOk(TestedConn(row, t).secret)
    && IssuerOk(Given(t.issuer, row.conn.issuer)) && ClientOk(Given(t.client, row.conn.client))
  }

  function Test(rows: Rows, id: nat, t: TestCall): (Rows, Response) {
    if id !in rows then (rows, NotFound)
    else if !TestRuns(rows[id], t) then (rows, Refused)
    else
      var row := rows[id];
      (rows[id := row.(lastTest := if t.ok then TestOk else TestError, tested := Some(TestedConn(row, t)))], Success)
  }

  function Delete(rows: Rows, id: nat): (Rows, Response) {
    if id !in rows then (rows, NotFound)
    else if rows[id].isDefault || rows[id].enabled then (rows, Refused)
    else (rows - {id}, Success)
  }

  // A body of the token API, which has its own, looser schema.
  datatype ApiBody = ApiBody(
    slug: string, port: int, issuer: string, client: string, secret: string, isDefault: bool, enabled: bool,
    restValid: bool, secretsOk: bool)

  predicate ApiValid(b: ApiBody) {
    && b.restValid && |b.slug| <= MAX_SLUG && |b.issuer| <= MAX_URL && HTTPS <= b.issuer
    && |b.client| <= MAX_CLIENT_ID && |b.secret| <= MAX_SECRET
  }

  function ApiRealm(b: ApiBody): Realm { NewRealm(b.slug, b.port, b.isDefault, Conn(RStripSlash(b.issuer), b.client, b.secret)) }

  // The token API: never creates an enabled realm.
  function ApiCreate(rows: Rows, id: nat, b: ApiBody): (Rows, Response) {
    if !ApiValid(b) || SlugTaken(rows, b.slug) || PortTaken(rows, b.port, None) || b.enabled || !b.secretsOk then (rows, Refused)
    else (ApplyDefault(rows[id := ApiRealm(b)], id, b.isDefault), Success)
  }

  // ----- The registry

  class Registry {
    var rows: Rows
    var nextId: nat

    constructor ()
      ensures rows == map[] && Valid()
    {
      rows, nextId := map[], 0;
    }

    ghost predicate Valid()
      reads this
    {
      Inv(rows) && forall i :: i in rows ==> i < nextId
    }

    // The bulk update of `_apply_default_realm`: every other row loses the flag.
    method ClearOtherDefaults(work: Rows, id: nat, isDefault: bool) returns (r: Rows)
      requires id in work
      ensures r.Keys == work.Keys && r[id] == work[id]
      ensures forall i :: i in work && i != id ==> r[i] == if isDefault then work[i].(isDefault := false) else work[i]
    {
      r := work;
      if isDefault {
        r := map i | i in work :: if i != id then work[i].(isDefault := false) else work[i];
      }
    }

    method AdminCreate(f: Form) returns (response: Response)
      requires Valid()
      modifies this
      ensures Valid()
      ensures (rows, response) == Create(old(rows), old(nextId), f)
    {
      CreateKeepsInv(rows, nextId, f);
      var ok := CheckCreate(rows, f);
      if !ok {
        return Refused;
      }
      var id := nextId;
      var work := StageCreate(rows, id, f);
      if f.bff.BffBad? {
        return Refused;
      }
      if f.bff.BffGood? {
        rows, nextId := work, id + 1;
      }
      if !AccessAllowed(work[id], f.access) {
        return Refused;
      }
      rows, nextId := work[id := work[id].(access := f.access)], id + 1;
      return Success;
    }

    // Validation, the uniqueness checks and the connection test of an activation.
    method CheckCreate(rows: Rows, f: Form) returns (ok: bool)
      ensures ok <==> CreateChecksPass(rows, f)
    {
      if !CreateValid(f) {
        return false;
      }
      var errors := SlugTaken(rows, SlugOf(f)) || PortTaken(rows, f.port, None);
      if f.activate {
        errors := errors || !f.testOk;
      }
      if errors || !f.secretsOk {
        return false;
      }
      if f.account.id || f.account.secret {
        errors := !f.account.id || !f.account.secret;
      }
      ok := !errors && (f.provisioning ==> f.account.id && f.account.secret);
    }

    // The session's rows after the flush, before the access-request block.
    method StageCreate(rows: Rows, id: nat, f: Form) returns (work: Rows)
      requires id !in rows
      ensures work == StagedCreation(rows, id, f)
    {
      var realm := NewRealm(SlugOf(f), f.port, f.isDefault, SentConn(f)).(
        login := f.login, account := f.account, provisioning := f.provisioning);
      work := ClearOtherDefaults(rows[id := realm], id, f.isDefault);
      realm := realm.(isDefault := f.isDefault);
      if f.activate {
        realm := realm.(lastTest := TestOk, tested := Some(SentConn(f)));
        realm := realm.(enabled := true);
      }
      work := work[id := realm];
      WorkIsCreated(rows, id, f, work);
    }

    // Validation, the port check and the connection test an activation may need.
    method CheckUpdate(rows: Rows, id: nat, f: Form) returns (ok: bool, tested: bool)
      requires id in rows
      ensures ok <==> UpdateChecksPass(rows, id, f)
      ensures ok ==> (tested <==> Retests(rows[id], f))
    {
      if !UpdateValid(f) {
        return false, false;
      }
      var errors := PortTaken(rows, f.port, Some(id));
      var secret := Resolve(Some(f.secret), rows[id].conn.secret, f.keyReads);
      tested := false;
      if f.activate && rows[id].lastTest != TestOk {
        if secret.None? {
          errors := true;
        } else {
          tested := true;
          errors := errors || !f.testOk;
        }
      }
      ok := !errors && f.secretsOk && AccountAccepted(rows[id], f);
    }

    // The session's rows before they are committed.
    method StageUpdate(rows: Rows, id: nat, f: Form, tested: bool) returns (work: Rows)
      requires id in rows && UpdateChecksPass(rows, id, f)
      requires tested <==> Retests(rows[id], f)
      ensures work == StagedUpdate(rows, id, f)
    {
      var realm := rows[id].(conn := ConnAfter(rows[id], f));
      if f.port != realm.port {
        realm := realm.(port := f.port);
      }
      realm := realm.(account := AccountAfter(rows[id], f), provisioning := f.provisioning);
      work := ClearOtherDefaults(rows, id, f.isDefault);
      realm := realm.(isDefault := f.isDefault);
      if f.activate {
        if tested {
          realm := realm.(lastTest := TestOk, tested := Some(UpdateTested(rows[id], f)));
        }
        realm := realm.(enabled := true);
      }
      work := work[id := realm];
      WorkIsUpdated(rows, id, f, work);
    }

    method AdminUpdate(id: nat, f: Form) returns (response: Response)
      requires Valid()
      modifies this
      ensures Valid()
      ensures (rows, response) == Update(old(rows), id, f)
    {
      if id !in rows {
        return NotFound;
      }
      UpdateKeepsInv(rows, id, f);
      var ok, tested := CheckUpdate(rows, id, f);
      if !ok {
        return Refused;
      }
      var work := StageUpdate(rows, id, f, tested);
      if f.bff.BffBad? {
        return Refused;
      }
      if f.bff.BffGood? {
        rows := work;
      }
      if !AccessAllowed(work[id], f.access) {
        return Refused;
      }
      rows := work[id := work[id].(access := f.access, login := f.login)];
      return Success;
    }

    method AdminEnable(id: nat) returns (response: Response)
      requires Valid()
      modifies this
      ensures Valid() && (rows, response) == Enable(old(rows), id)
    {
      if id !in rows {
        return NotFound;
      }
      if rows[id].lastTest != TestOk {
        return Refused;
      }
      rows := rows[id := rows[id].(enabled := true)];
      return Success;
    }

    method AdminDisable(id: nat) returns (response: Response)
      requires Valid()
      modifies this
      ensures Valid() && (rows, response) == Disable(old(rows), id)
    {
      if id !in rows {
        return NotFound;
      }
      rows := rows[id := rows[id].(enabled := false)];
      return Success;
    }

    method AdminTest(id: nat, t: TestCall) returns (response: Response)
      requires Valid()
      modifies this
      ensures Valid() && (rows, response) == Test(old(rows), id, t)
    {
      if id !in rows {
        return NotFound;
      }
      if t.throttled || !t.jsonOk {
        return Refused;
      }
      if !TestRuns(rows[id], t) {
        return Refused;
      }
      var target := TestedConn(rows[id], t);
      rows := rows[id := rows[id].(lastTest := if t.ok then TestOk else TestError, tested := Some(target))];
      return Success;
    }

    method DeleteRealm(id: nat) returns (response: Response)
      requires Valid()
      modifies this
      ensures Valid() && (rows, response) == Delete(old(rows), id)
    {
      if id !in rows {
        return NotFound;
      }
      if rows[id].isDefault {
        return Refused;
      }
      if rows[id].enabled {
        return Refused;
      }
      rows := rows - {id};
      return Success;
    }

    // The token API clears the other defaults before it refuses an enabled realm; the refusal is
    // never committed.
    method TokenCreate(b: ApiBody) returns (response: Response)
      requires Valid()
      modifies this
      ensures Valid() && (rows, response) == ApiCreate(old(rows), old(nextId), b)
    {
      ApiCreateKeepsInv(rows, nextId, b);
      if !ApiValid(b) {
        return Refused;
      }
      if SlugTaken(rows, b.slug) {
        return Refused;
      }
      if PortTaken(rows, b.port, None) {
        return Refused;
      }
      var work := rows;
      if b.isDefault {
        work := map i | i in rows :: rows[i].(isDefault := false);
      }
      if b.enabled || !b.secretsOk {
        return Refused;
      }
      work := work[nextId := ApiRealm(b)];
      assert work == ApiCreate(rows, nextId, b).0;
      rows, nextId := work, nextId + 1;
      return Success;
    }

    // `get_next_available_port`: the first port of the range that no other realm has.
    method NextAvailablePort(min: int, max: int, exclude: Option<nat>) returns (port: Option<int>)
      ensures var range := PortRange(min, max);
        match port
        case Some(p) => range.0 <= p < range.1 && !PortTaken(rows, p, exclude)
                        && forall q :: range.0 <= q < p ==> PortTaken(rows, q, exclude)
        case None => forall q :: range.0 <= q < range.1 ==> PortTaken(rows, q, exclude)
    {
      var used := set i | i in rows && Some(i) != exclude :: rows[i].port;
      var range := PortRange(min, max);
      for p := range.0 to range.1
        invariant forall q :: range.0 <= q < p ==> PortTaken(rows, q, exclude)
      {
        if p !in used {
          return Some(p);
        }
      }
      return None;
    }
  }

  // The configured range (end excluded), or the default one when it makes no sense.
  function PortRange(min: int, max: int): (r: (int, int))
    ensures r.0 <= r.1
  {
    if min <= 0 || max <= 0 || min > max then (4180, 4300) else (min, max + 1)
  }

  // A sensible configuration is the range with both its ends; any other one gives 4180 to 4299.
  lemma RangeExactly(min: int, max: int, p: int)
    ensures PortRange(min, max).0 <= p < PortRange(min, max).1
       <==> if 0 < min <= max then min <= p <= max else 4180 <= p <= 4299
  {}

  lemma WorkIsCreated(rows: Rows, id: nat, f: Form, work: Rows)
    requires id !in rows && work.Keys == rows.Keys + {id}
    requires work[id] == CreatedRow(f)
    requires forall i :: i in rows ==> work[i] == if f.isDefault then rows[i].(isDefault := false) else rows[i]
    ensures work == StagedCreation(rows, id, f)
  {}

  lemma WorkIsUpdated(rows: Rows, id: nat, f: Form, work: Rows)
    requires id in rows && work.Keys == rows.Keys
    requires work[id] == UpdatedRow(rows[id], f).(isDefault := f.isDefault)
    requires forall i :: i in rows && i != id ==> work[i] == if f.isDefault then rows[i].(isDefault := false) else rows[i]
    ensures work == StagedUpdate(rows, id, f)
  {}

  // ----- Steps keep the invariant

  lemma DefaultKeepsOne(rows: Rows, id: nat, isDefault: bool)
    requires id in rows
    requires OneDefault(rows - {id})
    ensures OneDefault(ApplyDefault(rows, id, isDefault))
  {
    var others := rows - {id};
    assert forall i :: i in rows && i != id ==> i in others && others[i] == rows[i];
  }

  lemma PutKeepsSlugs(rows: Rows, id: nat, row: Realm)
    requires SlugsDistinct(rows)
    requires if id in rows then row.slug == rows[id].slug else !SlugTaken(rows, row.slug)
    ensures SlugsDistinct(rows[id := row])
  {}

  lemma PutKeepsPorts(rows: Rows, id: nat, row: Realm)
    requires PortsDistinct(rows) && !PortTaken(rows, row.port, Some(id))
    ensures PortsDistinct(rows[id := row])
  {}

  // A row whose slug and port are free may join or, with its own slug, replace the one it was.
  lemma PutKeepsInv(rows: Rows, id: nat, row: Realm, isDefault: bool)
    requires Inv(rows)
    requires if id in rows then row.slug == rows[id].slug else !SlugTaken(rows, row.slug)
    requires !PortTaken(rows, row.port, Some(id))
    ensures Inv(ApplyDefault(rows[id := row], id, isDefault))
  {
    var put := rows[id := row];
    PutKeepsSlugs(rows, id, row);
    PutKeepsPorts(rows, id, row);
    assert OneDefault(put - {id});
    DefaultKeepsOne(put, id, isDefault);
    DefaultKeepsRest(put, id, isDefault);
  }

  lemma DefaultKeepsRest(rows: Rows, id: nat, isDefault: bool)
    requires id in rows && SlugsDistinct(rows) && PortsDistinct(rows)
    ensures SlugsDistinct(ApplyDefault(rows, id, isDefault)) && PortsDistinct(ApplyDefault(rows, id, isDefault))
  {
    var after := ApplyDefault(rows, id, isDefault);
    assert forall i :: i in after ==> after[i].slug == rows[i].slug && after[i].port == rows[i].port;
  }

  // The rules read nothing but slug, port and default flag.
  lemma RestIsFree(before: Rows, after: Rows)
    requires Inv(before) && after.Keys == before.Keys
    requires forall i :: i in before ==>
      after[i].slug == before[i].slug && after[i].port == before[i].port && after[i].isDefault == before[i].isDefault
    ensures Inv(after)
  {}

  // A creation leaves the rows, the staged ones, or those with the access-request columns.
  lemma CreateShape(rows: Rows, id: nat, f: Form)
    ensures var staged, after := StagedCreation(rows, id, f), Create(rows, id, f).0;
      after == rows || (CreateChecksPass(rows, f) && (after == staged || after == staged[id := staged[id].(access := f.access)]))
  {}

  lemma CreateKeepsInv(rows: Rows, id: nat, f: Form)
    requires Inv(rows) && id !in rows
    ensures Inv(Create(rows, id, f).0)
    ensures forall i :: i in Create(rows, id, f).0 ==> i in rows || i == id
  {
    CreateShape(rows, id, f);
    var after := Create(rows, id, f).0;
    if after != rows {
      StagedCreationKeepsInv(rows, id, f);
    }
  }

  lemma StagedCreationKeepsInv(rows: Rows, id: nat, f: Form)
    requires Inv(rows) && id !in rows && CreateChecksPass(rows, f)
    ensures var staged := StagedCreation(rows, id, f);
      id in staged && Inv(staged) && Inv(staged[id := staged[id].(access := f.access)])
  {
    var staged := StagedCreation(rows, id, f);
    CreatedFits(rows, f);
    PutKeepsInv(rows, id, CreatedRow(f), f.isDefault);
    RestIsFree(staged, staged[id := staged[id].(access := f.access)]);
  }

  lemma CreatedFits(rows: Rows, f: Form)
    requires CreateChecksPass(rows, f)
    ensures !SlugTaken(rows, CreatedRow(f).slug) && forall id :: !PortTaken(rows, CreatedRow(f).port, id)
  {}

  lemma ApiCreateKeepsInv(rows: Rows, id: nat, b: ApiBody)
    requires Inv(rows) && id !in rows
    ensures Inv(ApiCreate(rows, id, b).0)
  {
    if ApiCreate(rows, id, b).1.Success? {
      PutKeepsInv(rows, id, ApiRealm(b), b.isDefault);
    }
  }

  // An update leaves the rows, the staged ones, or those with the access-request and login columns.
  lemma UpdateShape(rows: Rows, id: nat, f: Form)
    requires id in rows
    ensures var staged, after := StagedUpdate(rows, id, f), Update(rows, id, f).0;
      after == rows
      || (UpdateChecksPass(rows, id, f)
          && (after == staged || after == staged[id := staged[id].(access := f.access, login := f.login)]))
  {}

  lemma StagedUpdateKeepsInv(rows: Rows, id: nat, f: Form)
    requires Inv(rows) && id in rows && UpdateChecksPass(rows, id, f)
    ensures var staged := StagedUpdate(rows, id, f);
      id in staged && Inv(staged) && Inv(staged[id := staged[id].(access := f.access, login := f.login)])
  {
    var staged := StagedUpdate(rows, id, f);
    assert !PortTaken(rows, UpdatedRow(rows[id], f).port, Some(id));
    PutKeepsInv(rows, id, UpdatedRow(rows[id], f), f.isDefault);
    RestIsFree(staged, staged[id := staged[id].(access := f.access, login := f.login)]);
  }

  lemma UpdateKeepsInv(rows: Rows, id: nat, f: Form)
    requires Inv(rows) && id in rows
    ensures Inv(Update(rows, id, f).0) && Update(rows, id, f).0.Keys == rows.Keys
  {
    UpdateShape(rows, id, f);
    if Update(rows, id, f).0 != rows {
      StagedUpdateKeepsInv(rows, id, f);
    }
  }

  // ----- Runs

  datatype Step =
    | CreateStep(form: Form)
    | UpdateStep(id: nat, form: Form)
    | EnableStep(id: nat)
    | DisableStep(id: nat)
    | TestStep(id: nat, call: TestCall)
    | DeleteStep(id: nat)
    | ApiCreateStep(body: ApiBody)

  // The database: rows and the next identifier, which is never used again.
  datatype Db = Db(rows: Rows, nextId: nat)

  function Result(db: Db, step: Step): (Rows, Response) {
    match step
    case CreateStep(f) => Create(db.rows, db.nextId, f)
    case UpdateStep(id, f) => Update(db.rows, id, f)
    case EnableStep(id) => Enable(db.rows, id)
    case DisableStep(id) => Disable(db.rows, id)
    case TestStep(id, t) => Test(db.rows, id, t)
    case DeleteStep(id) => Delete(db.rows, id)
    case ApiCreateStep(b) => ApiCreate(db.rows, db.nextId, b)
  }

  function Apply(db: Db, step: Step): Db {
    var r := Result(db, step).0;
    Db(r, if db.nextId in r then db.nextId + 1 else db.nextId)
  }

  ghost predicate Good(db: Db) { Inv(db.rows) && forall i :: i in db.rows ==> i < db.nextId }

  // A realm becomes enabled only with an ok test.
  ghost predicate EnabledByTest(before: Rows, after: Rows) {
    forall i :: i in after && after[i].enabled && !(i in before && before[i].enabled) ==> after[i].lastTest == TestOk
  }

  // Only disabled, non-default realms disappear.
  ghost predicate DeletedSafely(before: Rows, after: Rows) {
    forall i :: i in before && i !in after ==> !before[i].enabled && !before[i].isDefault
  }

  ghost predicate SlugsKept(before: Rows, after: Rows) {
    forall i :: i in before && i in after ==> after[i].slug == before[i].slug
  }

  ghost predicate StepOk(before: Rows, after: Rows) {
    Inv(after) && EnabledByTest(before, after) && DeletedSafely(before, after) && SlugsKept(before, after)
  }

  lemma CreateRules(rows: Rows, id: nat, f: Form)
    requires Inv(rows) && id !in rows
    ensures StepOk(rows, Create(rows, id, f).0)
  {
    CreateKeepsInv(rows, id, f);
  }

  lemma UpdateRules(rows: Rows, id: nat, f: Form)
    requires Inv(rows)
    ensures StepOk(rows, Update(rows, id, f).0)
  {
    if id in rows {
      UpdateKeepsInv(rows, id, f);
      UpdateShape(rows, id, f);
      StagedUpdateRules(rows, id, f);
    }
  }

  lemma StagedUpdateRules(rows: Rows, id: nat, f: Form)
    requires id in rows
    ensures var staged := StagedUpdate(rows, id, f);
      var after := staged[id := staged[id].(access := f.access, login := f.login)];
      && EnabledByTest(rows, staged) && DeletedSafely(rows, staged) && SlugsKept(rows, staged)
      && EnabledByTest(rows, after) && DeletedSafely(rows, after) && SlugsKept(rows, after)
  {
    var staged := StagedUpdate(rows, id, f);
    assert forall i :: i in rows && i != id ==> staged[i].enabled == rows[i].enabled && staged[i].slug == rows[i].slug;
  }

  lemma ApiCreateRules(rows: Rows, id: nat, b: ApiBody)
    requires Inv(rows) && id !in rows
    ensures StepOk(rows, ApiCreate(rows, id, b).0)
  {
    ApiCreateKeepsInv(rows, id, b);
  }

  // Changing flags of one row that keep its slug, port and default flag.
  lemma FlagRules(rows: Rows, id: nat, row: Realm)
    requires Inv(rows) && id in rows
    requires row == rows[id].(enabled := row.enabled, lastTest := row.lastTest, tested := row.tested)
    requires row.enabled && !rows[id].enabled ==> row.lastTest == TestOk
    ensures StepOk(rows, rows[id := row])
  {}

  lemma DeleteRules(rows: Rows, id: nat)
    requires Inv(rows)
    ensures StepOk(rows, Delete(rows, id).0)
  {}

  lemma ResultRules(db: Db, step: Step)
    requires Good(db)
    ensures StepOk(db.rows, Result(db, step).0)
  {
    match step
    case CreateStep(f) => CreateRules(db.rows, db.nextId, f);
    case UpdateStep(id, f) => UpdateRules(db.rows, id, f);
    case ApiCreateStep(b) => ApiCreateRules(db.rows, db.nextId, b);
    case EnableStep(id) =>
      if Enable(db.rows, id).1.Success? {
        FlagRules(db.rows, id, db.rows[id].(enabled := true));
      }
    case DisableStep(id) =>
      if id in db.rows {
        FlagRules(db.rows, id, db.rows[id].(enabled := false));
      }
    case TestStep(id, t) =>
      if Test(db.rows, id, t).1.Success? {
        FlagRules(db.rows, id, Test(db.rows, id, t).0[id]);
      }
    case DeleteStep(id) => DeleteRules(db.rows, id);
  }

  // A step only adds the next identifier and only a deletion removes one.
  lemma ResultKeys(db: Db, step: Step)
    ensures Result(db, step).0.Keys <= db.rows.Keys + {db.nextId}
    ensures db.rows.Keys <= Result(db, step).0.Keys + if step.DeleteStep? then {step.id} else {}
  {}

  // Main result: every step keeps slugs and ports pairwise distinct and at most one default realm. A realm
  // that becomes enabled has an ok test; one that disappears was disabled, not the default, and deleted
  // on purpose; slugs never change.
  lemma StepRules(db: Db, step: Step)
    requires Good(db)
    ensures Good(Apply(db, step)) && StepOk(db.rows, Apply(db, step).rows)
    ensures forall i :: i in db.rows && i !in Apply(db, step).rows ==> step == DeleteStep(i)
  {
    ResultRules(db, step);
    ResultKeys(db, step);
    var rows := Result(db, step).0;
    assert forall i :: i in rows ==> i in db.rows.Keys + {db.nextId};
    assert forall i :: i in db.rows.Keys && i !in rows.Keys ==> i in if step.DeleteStep? then {step.id} else {};
  }

  function Run(db: Db, steps: seq<Step>): Db
    decreases |steps|
  {
    if steps == [] then db else Run(Apply(db, steps[0]), steps[1..])
  }

  lemma {:induction false} RunKeepsGood(db: Db, steps: seq<Step>)
    requires Good(db)
    ensures Good(Run(db, steps))
    decreases |steps|
  {
    if steps != [] {
      StepRules(db, steps[0]);
      RunKeepsGood(Apply(db, steps[0]), steps[1..]);
    }
  }

  // ----- The latest test of each realm

  // The outcomes of the latest recorded tests after a step: of a test call that runs, of a creation that
  // activates, and of an update that activates a realm whose latest test did not succeed.
  function Recorded(db: Db, step: Step, latest: map<nat, bool>): map<nat, bool> {
    match step
    case CreateStep(f) => if f.activate && db.nextId in Result(db, step).0 then latest[db.nextId := f.testOk] else latest
    case UpdateStep(id, f) =>
      if UpdateCommits(db.rows, id, f) && f.activate && !(id in latest && latest[id]) then latest[id := f.testOk] else latest
    case TestStep(id, t) => if id in db.rows && TestRuns(db.rows[id], t) then latest[id := t.ok] else latest
    case _ => latest
  }

  function StatusOf(latest: map<nat, bool>, id: nat): TestStatus {
    if id !in latest then Untested else if latest[id] then TestOk else TestError
  }

  // Every status tells the outcome of the realm's latest test.
  ghost predicate StatusIsLatest(db: Db, latest: map<nat, bool>) {
    && RowsTell(db.rows, latest)
    && forall i :: i in latest ==> i < db.nextId
  }

  lemma TestSetsStatus(rows: Rows, id: nat, t: TestCall)
    requires id in rows && TestRuns(rows[id], t)
    ensures var after := Test(rows, id, t).0;
      after.Keys == rows.Keys && after[id] == rows[id].(lastTest := after[id].lastTest, tested := after[id].tested)
      && after[id].lastTest == (if t.ok then TestOk else TestError)
      && forall i :: i in rows && i != id ==> after[i] == rows[i]
  {}

  ghost predicate RowsTell(rows: Rows, latest: map<nat, bool>) {
    forall i :: i in rows ==> rows[i].lastTest == StatusOf(latest, i)
  }

  // Only one row and its own record have changed.
  lemma OneRowTells(before: Rows, after: Rows, id: nat, latest: map<nat, bool>, recorded: map<nat, bool>)
    requires RowsTell(before, latest) && after.Keys <= before.Keys + {id}
    requires forall i :: i in before && i in after && i != id ==> after[i].lastTest == before[i].lastTest
    requires recorded == latest || (id in recorded && recorded == latest[id := recorded[id]])
    requires id in after ==> after[id].lastTest == StatusOf(recorded, id)
    ensures RowsTell(after, recorded)
  {}

  lemma CreateRecords(db: Db, f: Form, latest: map<nat, bool>)
    requires Good(db) && StatusIsLatest(db, latest)
    ensures RowsTell(Create(db.rows, db.nextId, f).0, Recorded(db, CreateStep(f), latest))
  {
    CreateShape(db.rows, db.nextId, f);
    OneRowTells(db.rows, Create(db.rows, db.nextId, f).0, db.nextId, latest, Recorded(db, CreateStep(f), latest));
  }

  lemma UpdateRecords(rows: Rows, id: nat, f: Form, nextId: nat, latest: map<nat, bool>)
    requires RowsTell(rows, latest)
    ensures RowsTell(Update(rows, id, f).0, Recorded(Db(rows, nextId), UpdateStep(id, f), latest))
  {
    if UpdateCommits(rows, id, f) {
      var after := Update(rows, id, f).0;
      assert after[id].lastTest == if f.activate then TestOk else rows[id].lastTest;
      OneRowTells(rows, after, id, latest, Recorded(Db(rows, nextId), UpdateStep(id, f), latest));
    }
  }

  lemma ResultRecords(db: Db, step: Step, latest: map<nat, bool>)
    requires Good(db) && StatusIsLatest(db, latest)
    ensures RowsTell(Result(db, step).0, Recorded(db, step, latest))
  {
    match step
    case CreateStep(f) => CreateRecords(db, f, latest);
    case UpdateStep(id, f) => UpdateRecords(db.rows, id, f, db.nextId, latest);
    case TestStep(id, t) =>
      if id in db.rows && TestRuns(db.rows[id], t) {
        TestSetsStatus(db.rows, id, t);
      }
    case _ =>
  }

  // Main result: whatever the step, the status of every realm stays the outcome of its latest test.
  lemma StepRecords(db: Db, step: Step, latest: map<nat, bool>)
    requires Good(db) && StatusIsLatest(db, latest)
    ensures StatusIsLatest(Apply(db, step), Recorded(db, step, latest))
  {
    ResultRecords(db, step, latest);
  }

  // A realm becomes enabled only when its latest test succeeded.
  lemma EnabledByLatest(db: Db, step: Step, latest: map<nat, bool>, i: nat)
    requires Good(db) && StatusIsLatest(db, latest)
    requires var next := Apply(db, step).rows;
      i in next && next[i].enabled && !(i in db.rows && db.rows[i].enabled)
    ensures i in Recorded(db, step, latest) && Recorded(db, step, latest)[i]
  {
    StepRecords(db, step, latest);
    StepRules(db, step);
  }

  function RecordedOver(db: Db, steps: seq<Step>, latest: map<nat, bool>): map<nat, bool>
    decreases |steps|
  {
    if steps == [] then latest else RecordedOver(Apply(db, steps[0]), steps[1..], Recorded(db, steps[0], latest))
  }

  // Over every run, from the empty registry say, a status is ok exactly when the realm's latest test succeeded.
  lemma {:induction false} StatusIsLatestTest(db: Db, steps: seq<Step>, latest: map<nat, bool>)
    requires Good(db) && StatusIsLatest(db, latest)
    ensures StatusIsLatest(Run(db, steps), RecordedOver(db, steps, latest))
    decreases |steps|
  {
    if steps != [] {
      StepRules(db, steps[0]);
      StepRecords(db, steps[0], latest);
      StatusIsLatestTest(Apply(db, steps[0]), steps[1..], Recorded(db, steps[0], latest));
    }
  }

  // ----- What an accepted step stores

  // An accepted creation stores what was sent, normalised where the schema normalises, and nothing else changes but
  // the default flag that it takes from the others.
  lemma CreationStores(rows: Rows, id: nat, f: Form)
    requires id !in rows && Create(rows, id, f).1 == Success
    ensures var after := Create(rows, id, f).0;
      && after.Keys == rows.Keys + {id}
      && after[id].slug == Lower(Strip(f.slug)) && after[id].port == f.port && after[id].isDefault == f.isDefault
      && after[id].enabled == f.activate
      && after[id].conn == Conn(NormIssuer(f.issuer), Strip(f.client), f.secret)
      && after[id].access == f.access && after[id].login == f.login
      && after[id].account == f.account && after[id].provisioning == f.provisioning
      && forall i :: i in rows ==> after[i] == rows[i].(isDefault := rows[i].isDefault && !f.isDefault)
  {}

  // An accepted update stores what was sent, keeps the slug and a secret that is sent blank, and never disables.
  lemma UpdateStores(rows: Rows, id: nat, f: Form)
    requires Update(rows, id, f).1 == Success
    ensures id in rows
    ensures var row, after := rows[id], Update(rows, id, f).0;
      && after.Keys == rows.Keys
      && after[id].slug == row.slug && after[id].port == f.port && after[id].isDefault == f.isDefault
      && after[id].enabled == (row.enabled || f.activate)
      && after[id].conn == Conn(NormIssuer(f.issuer), Strip(f.client), if Strip(f.secret) == "" then row.conn.secret else f.secret)
      && after[id].access == f.access && after[id].login == f.login && after[id].provisioning == f.provisioning
      && after[id].account == Account(row.account.id || f.account.id, row.account.secret || f.account.secret)
      && forall i :: i in rows && i != id ==> after[i] == rows[i].(isDefault := rows[i].isDefault && !f.isDefault)
  {}

  // The three small handlers and the token API, row by row.
  lemma FlagsAndRowsFollow(rows: Rows, id: nat)
    requires id in rows
    ensures Enable(rows, id) == if rows[id].lastTest == TestOk then (rows[id := rows[id].(enabled := true)], Success) else (rows, Refused)
    ensures Disable(rows, id).1 == Success && !Disable(rows, id).0[id].enabled
            && Disable(rows, id).0 == rows[id := rows[id].(enabled := false)]
    ensures var (after, response) := Delete(rows, id);
      && (response == Success <==> !rows[id].isDefault && !rows[id].enabled)
      && after.Keys == (if response == Success then rows.Keys - {id} else rows.Keys)
      && forall i :: i in after ==> after[i] == rows[i]
  {}

  lemma TokenCreationStores(rows: Rows, id: nat, b: ApiBody)
    requires id !in rows && ApiCreate(rows, id, b).1 == Success
    ensures !b.enabled
    ensures var after := ApiCreate(rows, id, b).0;
      && after.Keys == rows.Keys + {id}
      && after[id].slug == b.slug && after[id].port == b.port && after[id].isDefault == b.isDefault
      && !after[id].enabled && after[id].lastTest == Untested && after[id].access == NO_ACCESS
      && after[id].conn == Conn(RStripSlash(b.issuer), b.client, b.secret)
      && forall i :: i in rows ==> after[i] == rows[i].(isDefault := rows[i].isDefault && !b.isDefault)
  {}

  // ----- Access requests and provisioning

  // Access requests are on only with provisioning and a complete service account.
  ghost predicate AccessSound(rows: Rows) {
    forall i :: i in rows && rows[i].access.requests ==>
      rows[i].provisioning && rows[i].account.id && rows[i].account.secret
  }

  // A refused update that is committed all the same and takes provisioning from a realm that has access requests on.
  predicate StrandsAccess(rows: Rows, step: Step) {
    step.UpdateStep? && CommitsEarly(rows, step) && rows[step.id].access.requests
  }

  lemma OneRowAccess(before: Rows, after: Rows, id: nat)
    requires AccessSound(before) && id in before && after.Keys == before.Keys
    requires forall i :: i in before && i != id ==> after[i] == before[i].(isDefault := after[i].isDefault)
    ensures AccessSound(after)
       <==> (after[id].access.requests ==> after[id].provisioning && after[id].account.id && after[id].account.secret)
  {}

  lemma UpdateAccess(rows: Rows, id: nat, f: Form)
    requires AccessSound(rows) && id in rows
    ensures AccessSound(Update(rows, id, f).0) <==> !StrandsAccess(rows, UpdateStep(id, f))
  {
    UpdateShape(rows, id, f);
    var after, staged := Update(rows, id, f).0, StagedUpdate(rows, id, f);
    if after != rows {
      assert staged[id].access == rows[id].access;
      OneRowAccess(rows, after, id);
    } else {
      StagedKeepsUnlessSame(rows, id, f);
    }
  }

  // A committed refusal that changes nothing strands nothing.
  lemma StagedKeepsUnlessSame(rows: Rows, id: nat, f: Form)
    requires AccessSound(rows) && id in rows && Update(rows, id, f).0 == rows
    ensures !StrandsAccess(rows, UpdateStep(id, f))
  {
    if CommitsEarly(rows, UpdateStep(id, f)) {
      var staged := StagedUpdate(rows, id, f);
      assert staged == rows;
      assert staged[id].provisioning == f.provisioning;
    }
  }

  lemma CreateAccess(rows: Rows, id: nat, f: Form)
    requires AccessSound(rows) && id !in rows
    ensures AccessSound(Create(rows, id, f).0)
  {
    CreateShape(rows, id, f);
  }

  // Main result: a step keeps every realm's access requests backed by provisioning exactly when it is no update
  // that is refused for its own access requests, committed with its client block, on a realm that has them on.
  lemma StepKeepsAccess(db: Db, step: Step)
    requires Good(db) && AccessSound(db.rows)
    ensures AccessSound(Apply(db, step).rows) <==> !StrandsAccess(db.rows, step)
  {
    match step
    case CreateStep(f) => CreateAccess(db.rows, db.nextId, f);
    case UpdateStep(id, f) =>
      if id in db.rows {
        UpdateAccess(db.rows, id, f);
      }
    case _ =>
  }

  // ----- What a refusal leaves

  // The client block is accepted (and committed with its audit entry) before the access-request block
  // is refused.
  predicate CommitsEarly(rows: Rows, step: Step) {
    match step
    case CreateStep(f) => CreateChecksPass(rows, f) && f.bff.BffGood? && !AccessAllowed(CreatedRow(f), f.access)
    case UpdateStep(id, f) =>
      id in rows && UpdateChecksPass(rows, id, f) && f.bff.BffGood? && !AccessAllowed(UpdatedRow(rows[id], f), f.access)
    case _ => false
  }

  // The columns that a committed refusal leaves as they were before the step.
  function Withheld(row: Realm, access: Access, login: Login): Realm { row.(access := access, login := login) }

  // The same form without the request that is refused.
  function WithoutRequests(f: Form): Form { f.(access := f.access.(requests := false)) }

  // Main result: a refused step changes nothing, except when the client block was committed before the
  // refusal; then the step has the effect of the same form without access requests, which is accepted, but for
  // the access-request columns, which stay off in a creation and as they were in an update, and in an update
  // the login columns.
  lemma RefusalLeavesRows(db: Db, step: Step)
    requires Good(db) && Result(db, step).1 != Success
    ensures !CommitsEarly(db.rows, step) ==> Result(db, step).0 == db.rows
    ensures CommitsEarly(db.rows, step) ==>
      match step
      case CreateStep(f) =>
        var (accepted, response) := Create(db.rows, db.nextId, WithoutRequests(f));
        response == Success && db.nextId in accepted
        && Result(db, step).0 == accepted[db.nextId := Withheld(accepted[db.nextId], NO_ACCESS, f.login)]
      case UpdateStep(id, f) =>
        var (accepted, response) := Update(db.rows, id, WithoutRequests(f));
        response == Success && id in accepted
        && Result(db, step).0 == accepted[id := Withheld(accepted[id], db.rows[id].access, db.rows[id].login)]
      case _ => false
  {
    match step
    case CreateStep(f) =>
      if CommitsEarly(db.rows, step) {
        RefusedCreation(db.rows, db.nextId, f);
      }
    case UpdateStep(id, f) =>
      if CommitsEarly(db.rows, step) {
        RefusedUpdate(db.rows, id, f);
      }
    case _ =>
  }

  lemma RefusedCreation(rows: Rows, id: nat, f: Form)
    requires id !in rows && CommitsEarly(rows, CreateStep(f))
    ensures var (accepted, response) := Create(rows, id, WithoutRequests(f));
      response == Success && id in accepted
      && Create(rows, id, f).0 == accepted[id := Withheld(accepted[id], NO_ACCESS, f.login)]
  {
    var staged := StagedCreation(rows, id, f);
    assert CreatedRow(WithoutRequests(f)) == CreatedRow(f) && staged[id] == CreatedRow(f);
    assert CreateChecksPass(rows, WithoutRequests(f));
  }

  lemma RefusedUpdate(rows: Rows, id: nat, f: Form)
    requires CommitsEarly(rows, UpdateStep(id, f))
    ensures var (accepted, response) := Update(rows, id, WithoutRequests(f));
      response == Success && id in accepted
      && Update(rows, id, f).0 == accepted[id := Withheld(accepted[id], rows[id].access, rows[id].login)]
  {
    assert UpdatedRow(rows[id], WithoutRequests(f)) == UpdatedRow(rows[id], f);
    assert UpdateChecksPass(rows, id, WithoutRequests(f));
  }

  // A refused creation leaves a new realm behind exactly in that case.
  lemma RefusedCreationPersists(db: Db, f: Form)
    requires Good(db) && Result(db, CreateStep(f)).1 == Refused
    ensures db.nextId in Result(db, CreateStep(f)).0 <==> CommitsEarly(db.rows, CreateStep(f))
  {}

  // ----- Whose settings an ok test vouches for

  // An ok status comes from a test with exactly the settings the realm holds.
  ghost predicate Vouched(rows: Rows) {
    forall i :: i in rows && rows[i].lastTest == TestOk ==> rows[i].tested == Some(rows[i].conn)
  }

  // The update is committed, accepted or not.
  predicate UpdateCommits(rows: Rows, id: nat, f: Form) {
    && id in rows && UpdateChecksPass(rows, id, f) && !f.bff.BffBad?
    && (AccessAllowed(UpdatedRow(rows[id], f), f.access) || f.bff.BffGood?)
  }

  // The update leaves other settings than those an ok status was or is now earned with: it changes the settings
  // of a realm whose status is ok, which is not tested again, or it tests a secret stripped of its blanks.
  predicate UpdateMisleads(row: Realm, f: Form) {
    if row.lastTest == TestOk then ConnAfter(row, f) != row.conn
    else f.activate && Strip(f.secret) != "" && Strip(f.secret) != f.secret
  }

  // Steps that leave an ok status that other settings earned.
  predicate Misleads(rows: Rows, step: Step) {
    match step
    case UpdateStep(id, f) => UpdateCommits(rows, id, f) && UpdateMisleads(rows[id], f)
    case TestStep(id, t) => id in rows && TestRuns(rows[id], t) && t.ok && TestedConn(rows[id], t) != rows[id].conn
    case _ => false
  }

  // What the update tests is what it stores, but for a secret sent with blanks around it.
  lemma TestedIsStored(row: Realm, f: Form)
    requires Resolve(Some(f.secret), row.conn.secret, f.keyReads).Some?
    ensures UpdateTested(row, f) == ConnAfter(row, f) <==> Strip(f.secret) == "" || Strip(f.secret) == f.secret
  {}

  // A test that overrides nothing tests the stored settings exactly when they are normal.
  lemma PlainTestIsOwn(row: Realm, t: TestCall)
    requires t.issuer.None? && t.client.None? && t.secret.None? && TestRuns(row, t)
    ensures TestedConn(row, t) == row.conn <==> NormIssuer(row.conn.issuer) == row.conn.issuer && Strip(row.conn.client) == row.conn.client
  {}

  // Rows but one are as they were, up to the default flag.
  ghost predicate OthersKept(before: Rows, after: Rows, id: nat) {
    && after.Keys == before.Keys + {id}
    && forall i :: i in before && i != id ==>
         after[i].lastTest == before[i].lastTest && after[i].tested == before[i].tested && after[i].conn == before[i].conn
  }

  lemma OneRowVouches(before: Rows, after: Rows, id: nat)
    requires OthersKept(before, after, id) && Vouched(before)
    ensures Vouched(after) <==> (after[id].lastTest == TestOk ==> after[id].tested == Some(after[id].conn))
  {}

  lemma UpdateVouches(rows: Rows, id: nat, f: Form)
    requires Vouched(rows) && UpdateCommits(rows, id, f)
    ensures Vouched(Update(rows, id, f).0) <==> !UpdateMisleads(rows[id], f)
  {
    var after := Update(rows, id, f).0;
    OneRowVouches(rows, after, id);
    if Retests(rows[id], f) {
      TestedIsStored(rows[id], f);
    }
  }

  lemma TestVouches(rows: Rows, id: nat, t: TestCall)
    requires Vouched(rows) && id in rows && TestRuns(rows[id], t)
    ensures Vouched(Test(rows, id, t).0) <==> !(t.ok && TestedConn(rows[id], t) != rows[id].conn)
  {
    OneRowVouches(rows, Test(rows, id, t).0, id);
  }

  lemma CreateVouches(rows: Rows, id: nat, f: Form)
    requires Vouched(rows) && id !in rows
    ensures Vouched(Create(rows, id, f).0)
  {
    if Create(rows, id, f).0 != rows {
      OneRowVouches(rows, Create(rows, id, f).0, id);
    }
  }

  lemma ApiCreateVouches(rows: Rows, id: nat, b: ApiBody)
    requires Vouched(rows) && id !in rows
    ensures Vouched(ApiCreate(rows, id, b).0)
  {
    if ApiCreate(rows, id, b).1.Success? {
      OneRowVouches(rows, ApiCreate(rows, id, b).0, id);
    }
  }

  // Main result: a step keeps every ok status earned by the realm's own settings exactly when it does not mislead.
  lemma StepVouches(db: Db, step: Step)
    requires Good(db) && Vouched(db.rows)
    ensures Vouched(Apply(db, step).rows) <==> !Misleads(db.rows, step)
  {
    match step
    case UpdateStep(id, f) =>
      if UpdateCommits(db.rows, id, f) {
        UpdateVouches(db.rows, id, f);
      }
    case CreateStep(f) => CreateVouches(db.rows, db.nextId, f);
    case ApiCreateStep(b) => ApiCreateVouches(db.rows, db.nextId, b);
    case TestStep(id, t) =>
      if id in db.rows && TestRuns(db.rows[id], t) {
        TestVouches(db.rows, id, t);
      }
    case _ =>
  }

  predicate NeverMisleads(db: Db, steps: seq<Step>)
    decreases |steps|
  {
    steps == [] || (!Misleads(db.rows, steps[0]) && NeverMisleads(Apply(db, steps[0]), steps[1..]))
  }

  // Over a run without such steps, an enabled realm whose status is ok was tested with its own settings.
  lemma {:induction false} RunVouches(db: Db, steps: seq<Step>)
    requires Good(db) && Vouched(db.rows) && NeverMisleads(db, steps)
    ensures Vouched(Run(db, steps).rows)
    decreases |steps|
  {
    if steps != [] {
      StepRules(db, steps[0]);
      StepVouches(db, steps[0]);
      RunVouches(Apply(db, steps[0]), steps[1..]);
    }
  }

  // ----- Cases

  // A form on an empty registry that asks for access requests without provisioning, with a good client block: the
  // answer is a refusal, and the realm is there.
  lemma RefusedCreationExample()
    ensures var f := Form("main", 4180, "https://idp", "portal", "s", true, Access(true, false), Login(true, true, ""),
                          false, Account(false, false), false, true, true, true, true, BffGood);
      var (rows, response) := Create(map[], 0, f);
      response == Refused && 0 in rows && rows[0].slug == "main" && rows[0].access == NO_ACCESS
  {
    PlainTexts();
  }

  // A realm whose client secret is "s" and which has not been tested.
  function Example(issuer: string): Realm { NewRealm("main", 4180, false, Conn(issuer, "portal", "s")) }

  // A test of the example that overrides nothing but the issuer.
  function IssuerCall(issuer: string): TestCall { TestCall(false, true, true, true, Some(issuer), None, None, true) }

  lemma IssuerCallRuns(own: string, sent: string)
    requires sent != "" && IssuerOk(sent)
    ensures TestRuns(Example(own), IssuerCall(sent))
    ensures TestedConn(Example(own), IssuerCall(sent)) == Conn(NormIssuer(sent), "portal", "s")
  {
    PlainTexts();
  }

  // A realm enabled on a test of another issuer: its own settings were never tested.
  lemma EnabledUntested()
    ensures var tested := Test(map[0 := Example("https://own")], 0, IssuerCall("https://other")).0;
      var (rows, response) := Enable(tested, 0);
      response == Success && rows[0].enabled
      && rows[0].tested == Some(Conn("https://other", "portal", "s")) && rows[0].conn.issuer == "https://own"
  {
    OtherIssuer();
    IssuerCallRuns("https://own", "https://other");
  }

  // The form sends its issuer with a slash at the end; the test is of the stored settings all the same.
  lemma SlashIsHarmless()
    ensures TestRuns(Example("https://own"), IssuerCall("https://own/"))
    ensures TestedConn(Example("https://own"), IssuerCall("https://own/")) == Example("https://own").conn
  {
    SlashedIssuer();
    IssuerCallRuns("https://own", "https://own/");
  }

  // An accepted activating update of an untested realm.
  lemma ActivatedBy(row: Realm, f: Form)
    requires row.lastTest.Untested? && f.activate && f.bff.BffEmpty? && !f.access.requests
    requires UpdateChecksPass(map[0 := row], 0, f)
    ensures var (rows, response) := Update(map[0 := row], 0, f);
      response == Success && rows[0].enabled && rows[0].conn == ConnAfter(row, f) && rows[0].tested == Some(UpdateTested(row, f))
  {}

  // An activating update whose secret has blanks around it: the secret that was tested is not the one stored.
  lemma PaddedSecretIsUntested()
    ensures var f := Form("main", 4180, "https://own", "portal", " s ", false, NO_ACCESS, Login(true, true, ""),
                          true, Account(false, false), false, true, true, true, true, BffEmpty);
      var (rows, response) := Update(map[0 := Example("https://own")], 0, f);
      response == Success && rows[0].enabled && rows[0].conn.secret == " s "
      && rows[0].tested == Some(Conn("https://own", "portal", "s"))
  {
    var f := Form("main", 4180, "https://own", "portal", " s ", false, NO_ACCESS, Login(true, true, ""),
                  true, Account(false, false), false, true, true, true, true, BffEmpty);
    OwnIssuer();
    PlainTexts();
    PaddedSecret();
    assert UpdateValid(f);
    ActivatedBy(Example("https://own"), f);
  }

  // A realm with access requests on, and a form that keeps them but takes provisioning away, with a good client
  // block: the form is refused, provisioning is gone, and the requests are still on.
  lemma AccessStranded()
    ensures var row := Example("https://own").(access := Access(true, false), account := Account(true, true), provisioning := true);
      var f := Form("main", 4180, "https://own", "portal", "", false, Access(true, false), Login(true, true, ""),
                    false, Account(false, false), false, true, true, true, true, BffGood);
      var (rows, response) := Update(map[0 := row], 0, f);
      response == Refused && rows[0].access.requests && !rows[0].provisioning
  {
    OwnIssuer();
    PlainTexts();
    assert Strip("") == "";
  }
}
