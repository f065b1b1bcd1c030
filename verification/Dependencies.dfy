/** The dependency inventory (app/admin/dependencies_service.py): parsing the declared
    packages, reconciling them with the stored rows, and refreshing the latest versions
    from lookups that finish in any order. */
module Dependencies {
  import opened PyText
  import opened Versions

  datatype Ecosystem = Python | Npm

  datatype Key = Key(ecosystem: Ecosystem, name: string)

  datatype Dep = Dep(
    key: Key, declared: string, current: string, depType: string, notes: Option<string>, isDirect: bool)

  datatype Row = Row(
    declared: string, current: string, depType: string, isDirect: bool, notes: Option<string>,
    latest: string, status: Status, checkError: Option<string>, lastChecked: Option<int>)

  ghost predicate DistinctKeys(deps: seq<Dep>) {
    forall i, j :: 0 <= i < j < |deps| ==> deps[i].key != deps[j].key
  }

  // ----- Python manifests

  predicate IsAlnum(c: char) { 'A' <= c <= 'Z' || 'a' <= c <= 'z' || '0' <= c <= '9' }

  function NameLength(s: string): (n: nat)
    ensures n <= |s|
  {
    if s != [] && (IsAlnum(s[0]) || s[0] == '.' || s[0] == '_' || s[0] == '-') then 1 + NameLength(s[1..]) else 0
  }

  // The longest name at the start of a requirement; a name starts with a letter or digit.
  function RequirementName(spec: string): Option<string> {
    var s := Strip(spec);
    if s == [] || !IsAlnum(s[0]) then None else Some(s[..NameLength(s)])
  }

  // The characters 0-9, A-Z and a-z by their codes.
  lemma AlnumExactly(c: char)
    ensures IsAlnum(c) <==> var n := c as int; 47 < n < 58 || 64 < n < 91 || 96 < n < 123
  {}

  predicate NameChar(c: char) { IsAlnum(c) || c == '.' || c == '_' || c == '-' }

  lemma {:induction false} NameLengthIs(name: string, rest: string)
    requires forall i :: 0 <= i < |name| ==> NameChar(name[i])
    requires rest == "" || !NameChar(rest[0])
    ensures NameLength(name + rest) == |name|
  {
    if name == "" {
      assert name + rest == rest;
    } else {
      NameLengthIs(name[1..], rest);
      assert (name + rest)[1..] == name[1..] + rest;
    }
  }

  lemma {:induction false} NameIsTaken(s: string)
    ensures forall i :: 0 <= i < NameLength(s) ==> NameChar(s[i])
    ensures NameLength(s) == |s| || !NameChar(s[NameLength(s)])
  {
    if s != "" && NameChar(s[0]) {
      NameIsTaken(s[1..]);
    }
  }

  // A requirement names a package exactly when its stripped text starts with a letter or digit; the name is all of
  // the name characters from there on.
  lemma NameExactly(spec: string, name: string)
    ensures RequirementName(spec) == Some(name)
       <==> (&& name != "" && IsAlnum(name[0]) && (forall i :: 0 <= i < |name| ==> NameChar(name[i]))
             && exists rest :: Strip(spec) == name + rest && (rest == "" || !NameChar(rest[0])))
  {
    var s := Strip(spec);
    NameIsTaken(s);
    if RequirementName(spec) == Some(name) {
      assert s == name + s[|name|..];
    }
    if name != "" && IsAlnum(name[0]) && forall i :: 0 <= i < |name| ==> NameChar(name[i]) {
      if rest :| s == name + rest && (rest == "" || !NameChar(rest[0])) {
        NameLengthIs(name, rest);
      }
    }
  }

  // `resolver` answers the installed version; `constraint` is the rest of the requirement text.
  datatype Resolver = Resolver(installed: string -> Option<string>, constraint: (string, string) -> string)

  function PythonDep(r: Resolver, spec: string, name: string, depType: string): Dep {
    var v := r.installed(name);
    var found := v.Some? && v.value != "";
    Dep(Key(Python, name), r.constraint(spec, name), if found then v.value else "—", depType,
        if found then None else Some("not_installed"), true)
  }

  // The package a requirement adds, unless its name, whatever its case, was seen before.
  function AddedBy(r: Resolver, spec: string, depType: string, seen: set<string>): seq<Dep> {
    match RequirementName(spec)
    case None => []
    case Some(name) => if Lower(name) in seen then [] else [PythonDep(r, spec, name, depType)]
  }

  function SeenWith(spec: string, seen: set<string>): set<string> {
    match RequirementName(spec)
    case None => seen
    case Some(name) => seen + {Lower(name)}
  }

  function FreshDeps(r: Resolver, specs: seq<string>, depType: string, seen: set<string>): seq<Dep> {
    if specs == [] then []
    else AddedBy(r, specs[0], depType, seen) + FreshDeps(r, specs[1..], depType, SeenWith(specs[0], seen))
  }

  function SeenAfter(specs: seq<string>, seen: set<string>): set<string> {
    if specs == [] then seen else SeenAfter(specs[1..], SeenWith(specs[0], seen))
  }

  method ParseSpecs(r: Resolver, specs: seq<string>, depType: string, before: set<string>)
    returns (out: seq<Dep>, seen: set<string>)
    ensures out == FreshDeps(r, specs, depType, before)
    ensures seen == SeenAfter(specs, before)
  {
    out, seen := [], before;
    for i := 0 to |specs|
      invariant out + FreshDeps(r, specs[i..], depType, seen) == FreshDeps(r, specs, depType, before)
      invariant SeenAfter(specs[i..], seen) == SeenAfter(specs, before)
    {
      assert specs[i..][1..] == specs[i + 1..];
      var added, next := ParseSpec(r, specs[i], depType, seen);
      out := out + added;
      seen := next;
    }
  }

  method ParseSpec(r: Resolver, spec: string, depType: string, seen: set<string>)
    returns (added: seq<Dep>, next: set<string>)
    ensures added == AddedBy(r, spec, depType, seen) && next == SeenWith(spec, seen)
  {
    var name := RequirementName(spec);
    if name.None? {
      return [], seen;
    }
    if Lower(name.value) in seen {
      assert seen + {Lower(name.value)} == seen;
      return [], seen;
    }
    return [PythonDep(r, spec, name.value, depType)], seen + {Lower(name.value)};
  }

  method ParsePython(r: Resolver, runtime: seq<string>, dev: seq<string>) returns (out: seq<Dep>)
    ensures out == FreshDeps(r, runtime, "runtime", {}) + FreshDeps(r, dev, "dev", SeenAfter(runtime, {}))
  {
    var seen, more;
    out, seen := ParseSpecs(r, runtime, "runtime", {});
    more, seen := ParseSpecs(r, dev, "dev", seen);
    out := out + more;
  }

  function LowerNames(deps: seq<Dep>): set<string> { set d | d in deps :: Lower(d.key.name) }

  ghost predicate DistinctLower(deps: seq<Dep>) {
    forall i, j :: 0 <= i < j < |deps| ==> Lower(deps[i].key.name) != Lower(deps[j].key.name)
  }

  lemma DistinctLowerConcat(a: seq<Dep>, b: seq<Dep>)
    requires DistinctLower(a) && DistinctLower(b) && LowerNames(a) !! LowerNames(b)
    ensures DistinctLower(a + b) && LowerNames(a + b) == LowerNames(a) + LowerNames(b)
  {
    var out := a + b;
    forall i, j | 0 <= i < j < |out|
      ensures Lower(out[i].key.name) != Lower(out[j].key.name)
    {
      if i < |a| <= j {
        assert out[i] in a && out[j] in b;
        assert Lower(out[i].key.name) in LowerNames(a) && Lower(out[j].key.name) in LowerNames(b);
      }
    }
  }

  lemma {:induction false} FreshDepsAreFresh(r: Resolver, specs: seq<string>, depType: string, seen: set<string>)
    ensures var deps := FreshDeps(r, specs, depType, seen);
      && DistinctLower(deps)
      && LowerNames(deps) !! seen
      && SeenAfter(specs, seen) == seen + LowerNames(deps)
  {
    if specs != [] {
      var added, next := AddedBy(r, specs[0], depType, seen), SeenWith(specs[0], seen);
      FreshDepsAreFresh(r, specs[1..], depType, next);
      assert LowerNames(added) + seen == next by {
        if added != [] {
          assert added[0] in added;
        }
      }
      assert LowerNames(added) !! seen;
      DistinctLowerConcat(added, FreshDeps(r, specs[1..], depType, next));
    }
  }

  // The parsed Python packages are pairwise distinct even ignoring case, and every named requirement,
  // runtime or dev, is there once.
  lemma PythonKeysDistinct(r: Resolver, runtime: seq<string>, dev: seq<string>)
    ensures var out := FreshDeps(r, runtime, "runtime", {}) + FreshDeps(r, dev, "dev", SeenAfter(runtime, {}));
      && DistinctLower(out) && DistinctKeys(out)
      && LowerNames(out) == SeenAfter(dev, SeenAfter(runtime, {}))
  {
    FreshDepsAreFresh(r, runtime, "runtime", {});
    FreshDepsAreFresh(r, dev, "dev", SeenAfter(runtime, {}));
    DistinctLowerConcat(FreshDeps(r, runtime, "runtime", {}), FreshDeps(r, dev, "dev", SeenAfter(runtime, {})));
  }

  // Every package comes from a requirement that names it, with the version the resolver found or a note that it is
  // not installed.
  lemma {:induction false} FreshDepsComeFromSpecs(r: Resolver, specs: seq<string>, depType: string, seen: set<string>)
    ensures forall d :: d in FreshDeps(r, specs, depType, seen) ==> exists spec :: spec in specs && ComesFrom(r, spec, depType, d)
  {
    if specs != [] {
      FreshDepsComeFromSpecs(r, specs[1..], depType, SeenWith(specs[0], seen));
      var added, rest := AddedBy(r, specs[0], depType, seen), FreshDeps(r, specs[1..], depType, SeenWith(specs[0], seen));
      forall d | d in added + rest
        ensures exists spec :: spec in specs && ComesFrom(r, spec, depType, d)
      {
        if d in rest {
          var spec :| spec in specs[1..] && ComesFrom(r, spec, depType, d);
          assert spec in specs;
        } else {
          assert ComesFrom(r, specs[0], depType, d);
        }
      }
    }
  }

  predicate ComesFrom(r: Resolver, spec: string, depType: string, d: Dep) {
    && RequirementName(spec) == Some(d.key.name) && d.key.ecosystem == Python
    && d.declared == r.constraint(spec, d.key.name) && d.depType == depType && d.isDirect
    && match r.installed(d.key.name)
       case Some(v) =>
         if v != "" then d.current == v && d.notes == None else d.current == "—" && d.notes == Some("not_installed")
       case None => d.current == "—" && d.notes == Some("not_installed")
  }

  // ----- npm manifests

  // name -> (version, type) from the lockfile, name -> (range, type) from package.json.
  type Locked = map<string, (string, string)>
  type Direct = map<string, (string, string)>

  function NpmDep(name: string, direct: Direct, locked: Locked): Dep {
    var isDirect := name in direct;
    var declared := if isDirect then direct[name].0 else "";
    var depType := if isDirect then direct[name].1 else if name in locked then locked[name].1 else "runtime";
    if name in locked then Dep(Key(Npm, name), declared, locked[name].0, depType, None, isDirect)
    else Dep(Key(Npm, name), declared, if declared != "" then declared else "—", depType, Some("unlocked"), isDirect)
  }

  function UnlockedDep(name: string, direct: Direct): Dep
    requires name in direct
  {
    Dep(Key(Npm, name), direct[name].0, direct[name].0, direct[name].1, Some("unlocked"), true)
  }

  function NpmNames(deps: seq<Dep>): set<string> { set d | d in deps :: d.key.name }

  function NpmEntry(name: string, direct: Direct, locked: Option<Locked>): Dep
    requires locked.None? ==> name in direct
  {
    if locked.None? then UnlockedDep(name, direct) else NpmDep(name, direct, locked.value)
  }

  // The four kinds of npm package: in both files, only in the lockfile, only in package.json, and without a lockfile.
  lemma NpmEntryFields(name: string, direct: Direct, locked: Option<Locked>)
    requires name in direct || (locked.Some? && name in locked.value)
    ensures var d := NpmEntry(name, direct, locked);
      && d.key == Key(Npm, name) && d.isDirect == (name in direct)
      && (name in direct ==> d.declared == direct[name].0 && d.depType == direct[name].1)
      && (name !in direct ==> d.declared == "" && d.depType == locked.value[name].1)
      && (locked.Some? && name in locked.value ==> d.current == locked.value[name].0 && d.notes == None)
      && (locked.None? || name !in locked.value ==> d.notes == Some("unlocked"))
      && (locked.Some? && name !in locked.value ==> d.current == if direct[name].0 != "" then direct[name].0 else "—")
      && (locked.None? ==> d.current == direct[name].0)
  {}

  // One package per name of the lockfile and of package.json, in some order.
  method ParseNpm(direct: Direct, locked: Option<Locked>) returns (out: seq<Dep>)
    ensures DistinctKeys(out)
    ensures NpmNames(out) == direct.Keys + if locked.Some? then locked.value.Keys else {}
    ensures forall d :: d in out ==> (locked.None? ==> d.key.name in direct) && d == NpmEntry(d.key.name, direct, locked)
  {
    var names := direct.Keys + if locked.Some? then locked.value.Keys else {};
    var rest := names;
    out := [];
    while rest != {}
      invariant rest <= names
      invariant NpmNames(out) == names - rest
      invariant DistinctKeys(out)
      invariant forall d :: d in out ==> (locked.None? ==> d.key.name in direct) && d == NpmEntry(d.key.name, direct, locked)
      decreases rest
    {
      var name :| name in rest;
      var dep := NpmEntry(name, direct, locked);
      assert forall i :: 0 <= i < |out| ==> out[i] in out && out[i].key.name in NpmNames(out);
      NpmNamesGrow(out, dep);
      out := out + [dep];
      rest := rest - {name};
    }
  }

  lemma NpmNamesGrow(deps: seq<Dep>, d: Dep)
    ensures NpmNames(deps + [d]) == NpmNames(deps) + {d.key.name}
  {
    assert d in deps + [d];
    assert forall e :: e in deps ==> e in deps + [d];
  }

  // ----- Reconciliation with the stored rows

  type Rows = map<Key, Row>

  // The classification of two version texts.
  type Classifier = (string, string) -> Status

  // The row of a package after synchronisation, given its stored row.
  function SyncRow(classify: Classifier, stored: Option<Row>, d: Dep): Row {
    match stored
    case None => Row(d.declared, d.current, d.depType, d.isDirect, d.notes, "", Unknown, None, None)
    case Some(r) =>
      r.(declared := d.declared, current := d.current, depType := d.depType, isDirect := d.isDirect, notes := d.notes,
         status := if r.latest != "" then classify(d.current, r.latest) else Unknown)
  }

  function Stored(rows: Rows, k: Key): Option<Row> { if k in rows then Some(rows[k]) else None }

  function KeysOf(deps: seq<Dep>): set<Key> { set d | d in deps :: d.key }

  // Rows after the first packages have been handled; nothing is deleted yet.
  function Upserted(classify: Classifier, rows: Rows, deps: seq<Dep>): Rows {
    if deps == [] then rows
    else
      var d, before := deps[|deps| - 1], Upserted(classify, rows, deps[..|deps| - 1]);
      before[d.key := SyncRow(classify, Stored(rows, d.key), d)]
  }

  function Synced(classify: Classifier, rows: Rows, deps: seq<Dep>): Rows {
    var all := Upserted(classify, rows, deps);
    map k | k in all && k in KeysOf(deps) :: all[k]
  }

  // A package that is new and listed twice violates the unique constraint.
  ghost predicate Conflict(rows: Rows, deps: seq<Dep>) {
    exists i, j :: 0 <= i < j < |deps| && deps[i].key == deps[j].key && deps[i].key !in rows
  }

  class Inventory {
    var rows: Rows
    const parse: string -> Option<Version>

    constructor (parse: string -> Option<Version>)
      ensures rows == map[] && this.parse == parse
    {
      rows, this.parse := map[], parse;
    }

    function Classify(): Classifier {
      (current, latest) => ComputeStatus(this.parse(current), this.parse(latest))
    }

    // Upsert every package, delete the rows of the others; a violated constraint rolls back.
    method Sync(deps: seq<Dep>) returns (ok: bool)
      modifies this
      ensures ok <==> !Conflict(old(rows), deps)
      ensures rows == if ok then Synced(Classify(), old(rows), deps) else old(rows)
    {
      var existing := rows;
      var table := rows;
      ok := true;
      for i := 0 to |deps|
        invariant rows == old(rows)
        invariant table == Upserted(Classify(), existing, deps[..i])
        invariant table.Keys == existing.Keys + KeysOf(deps[..i])
        invariant ok <==> !Conflict(existing, deps[..i])
      {
        var d := deps[i];
        UpsertedGrows(Classify(), existing, deps, i);
        ConflictGrows(existing, deps, i);
        KeysGrow(deps, i);
        var row := SyncRow(Classify(), Stored(existing, d.key), d);
        if d.key !in existing && d.key in table {
          ok := false;
        }
        table := table[d.key := row];
      }
      assert deps[..|deps|] == deps;
      assert table == Upserted(Classify(), existing, deps);
      if ok {
        rows := map k | k in table && k in KeysOf(deps) :: table[k];
        assert rows == Synced(Classify(), existing, deps);
      }
    }

    // Read both manifests and synchronise: this never conflicts, leaves exactly one row per package of either
    // manifest, and keeps what was looked up for packages already stored.
    method SyncManifests(r: Resolver, runtime: seq<string>, dev: seq<string>, direct: Direct, locked: Option<Locked>)
      returns (python: seq<Dep>, npm: seq<Dep>)
      modifies this
      ensures DistinctKeys(python + npm) && rows.Keys == KeysOf(python) + KeysOf(npm)
      ensures LowerNames(python) == SeenAfter(dev, SeenAfter(runtime, {}))
      ensures NpmNames(npm) == direct.Keys + if locked.Some? then locked.value.Keys else {}
      ensures rows == Synced(Classify(), old(rows), python + npm)
    {
      python := ParsePython(r, runtime, dev);
      npm := ParseNpm(direct, locked);
      PythonKeysDistinct(r, runtime, dev);
      FreshDepsArePython(r, runtime, "runtime", {});
      FreshDepsArePython(r, dev, "dev", SeenAfter(runtime, {}));
      EcosystemsAreDistinct(python, npm);
      SyncOutcome(Classify(), rows, python + npm);
      SyncedHasAll(Classify(), rows, python + npm);
      var ok := Sync(python + npm);
    }

    // Synchronise, look the latest versions up (the answers arrive in `order`), then store them.
    method Refresh(deps: seq<Dep>, answers: seq<Answer>, order: seq<nat>, now: int)
      returns (ok: bool, checked: nat, errors: nat)
      requires |answers| == |deps| && forall i :: 0 <= i < |order| ==> order[i] < |deps|
      modifies this
      ensures ok <==> !Conflict(old(rows), deps)
      ensures !ok ==> rows == old(rows)
      ensures ok ==>
        var synced := Synced(Classify(), old(rows), deps);
        var results := Collected(deps, answers, order);
        && rows == Applied(Classify(), synced, deps, results, now)
        && checked == CountChecked(deps, results)
        && errors == |deps| - CountChecked(deps, results)
    {
      checked, errors := 0, 0;
      ok := Sync(deps);
      if !ok {
        return;
      }
      var results := Collect(deps, answers, order);
      SyncedHasAll(Classify(), old(rows), deps);
      checked, errors := Store(deps, results, now);
    }

    // Fill the results dictionary as the lookups finish.
    method Collect(deps: seq<Dep>, answers: seq<Answer>, order: seq<nat>) returns (results: map<Key, Answer>)
      requires |answers| == |deps| && forall i :: 0 <= i < |order| ==> order[i] < |deps|
      ensures results == Collected(deps, answers, order)
    {
      results := map[];
      for i := 0 to |order|
        invariant results == Collected(deps, answers, order[..i])
      {
        results := results[deps[order[i]].key := answers[order[i]]];
        assert order[..i + 1][..i] == order[..i];
      }
      assert order[..|order|] == order;
    }

    // Write the answers into the rows and count them.
    method Store(deps: seq<Dep>, results: map<Key, Answer>, now: int) returns (checked: nat, errors: nat)
      requires rows.Keys == KeysOf(deps)
      modifies this
      ensures rows == Applied(Classify(), old(rows), deps, results, now)
      ensures checked == CountChecked(deps, results) && errors == |deps| - checked
    {
      checked, errors := 0, 0;
      for i := 0 to |deps|
        invariant rows == Applied(Classify(), old(rows), deps[..i], results, now)
        invariant rows.Keys == KeysOf(deps)
        invariant checked == CountChecked(deps[..i], results)
        invariant checked + errors == i
      {
        RefreshGrows(Classify(), old(rows), deps, results, now, i);
        assert deps[i] in deps;
        var a := AnswerFor(results, deps[i].key);
        if Succeeded(a) {
          checked := checked + 1;
        } else {
          errors := errors + 1;
        }
        rows := rows[deps[i].key := RefreshRow(Classify(), rows[deps[i].key], a, now)];
      }
      assert deps[..|deps|] == deps;
    }
  }

  // One more row refreshed and counted.
  lemma RefreshGrows(classify: Classifier, rows: Rows, deps: seq<Dep>, results: map<Key, Answer>, now: int, i: nat)
    requires i < |deps|
    ensures var k, before := deps[i].key, Applied(classify, rows, deps[..i], results, now);
      Applied(classify, rows, deps[..i + 1], results, now)
        == if k in before then before[k := RefreshRow(classify, before[k], AnswerFor(results, k), now)] else before
    ensures CountChecked(deps[..i + 1], results)
         == CountChecked(deps[..i], results) + if Succeeded(AnswerFor(results, deps[i].key)) then 1 else 0
  {
    assert deps[..i + 1][..i] == deps[..i];
  }

  lemma UpsertedGrows(classify: Classifier, rows: Rows, deps: seq<Dep>, i: nat)
    requires i < |deps|
    ensures Upserted(classify, rows, deps[..i + 1])
         == Upserted(classify, rows, deps[..i])[deps[i].key := SyncRow(classify, Stored(rows, deps[i].key), deps[i])]
  {
    assert deps[..i + 1][..i] == deps[..i] && deps[..i + 1][i] == deps[i];
  }

  lemma KeysGrow(deps: seq<Dep>, i: nat)
    requires i < |deps|
    ensures KeysOf(deps[..i + 1]) == KeysOf(deps[..i]) + {deps[i].key}
  {
    assert deps[..i + 1] == deps[..i] + [deps[i]];
    assert deps[i] in deps[..i + 1];
    assert forall d :: d in deps[..i] ==> d in deps[..i + 1];
  }

  lemma ConflictGrows(rows: Rows, deps: seq<Dep>, n: nat)
    requires n < |deps|
    ensures Conflict(rows, deps[..n + 1])
       <==> Conflict(rows, deps[..n]) || (deps[n].key !in rows && deps[n].key in KeysOf(deps[..n]))
  {
    var a, b := deps[..n], deps[..n + 1];
    assert b == a + [deps[n]];
    if Conflict(rows, b) {
      NewConflict(rows, a, deps[n]);
    }
    if Conflict(rows, a) {
      var i, j :| 0 <= i < j < |a| && a[i].key == a[j].key && a[i].key !in rows;
      assert b[i] == a[i] && b[j] == a[j];
    }
    if deps[n].key !in rows && deps[n].key in KeysOf(a) {
      var i :| 0 <= i < |a| && a[i].key == deps[n].key;
      assert b[i] == a[i] && b[n] == deps[n];
    }
  }

  lemma NewConflict(rows: Rows, a: seq<Dep>, d: Dep)
    requires Conflict(rows, a + [d])
    ensures Conflict(rows, a) || (d.key !in rows && d.key in KeysOf(a))
  {
    var b := a + [d];
    var i, j :| 0 <= i < j < |b| && b[i].key == b[j].key && b[i].key !in rows;
    assert a[i] == b[i] && a[i] in a;
    if j < |a| {
      assert a[j] == b[j];
    }
  }

  // ----- What synchronisation leaves

  lemma {:induction false} UpsertedAt(classify: Classifier, rows: Rows, deps: seq<Dep>, i: nat)
    requires DistinctKeys(deps) && i < |deps|
    ensures deps[i].key in Upserted(classify, rows, deps)
    ensures Upserted(classify, rows, deps)[deps[i].key] == SyncRow(classify, Stored(rows, deps[i].key), deps[i])
  {
    if i < |deps| - 1 {
      UpsertedAt(classify, rows, deps[..|deps| - 1], i);
    }
  }

  lemma {:induction false} SyncedHasAll(classify: Classifier, rows: Rows, deps: seq<Dep>)
    ensures Synced(classify, rows, deps).Keys == KeysOf(deps)
  {
    UpsertedKeys(classify, rows, deps);
  }

  lemma {:induction false} UpsertedKeys(classify: Classifier, rows: Rows, deps: seq<Dep>)
    ensures Upserted(classify, rows, deps).Keys == rows.Keys + KeysOf(deps)
  {
    if deps != [] {
      var n := |deps| - 1;
      UpsertedKeys(classify, rows, deps[..n]);
      KeysGrow(deps, n);
      assert deps[..n + 1] == deps;
    }
  }

  // Main result: with distinct packages there is no conflict, exactly one row per parsed package, each row carries
  // the package's data, and a package that was stored keeps its latest version, last error and last check.
  lemma SyncOutcome(classify: Classifier, rows: Rows, deps: seq<Dep>)
    requires DistinctKeys(deps)
    ensures !Conflict(rows, deps)
    ensures var synced := Synced(classify, rows, deps);
      && synced.Keys == KeysOf(deps)
      && forall i :: 0 <= i < |deps| ==>
           var k, d := deps[i].key, deps[i];
           && k in synced
           && synced[k].declared == d.declared && synced[k].current == d.current && synced[k].depType == d.depType
           && synced[k].isDirect == d.isDirect && synced[k].notes == d.notes
           && (k in rows ==> synced[k].latest == rows[k].latest && synced[k].lastChecked == rows[k].lastChecked
                             && synced[k].checkError == rows[k].checkError)
           && (k !in rows ==> synced[k].latest == "" && synced[k].lastChecked.None? && synced[k].checkError.None?)
           && synced[k].status == if k in rows && rows[k].latest != "" then classify(d.current, rows[k].latest) else Unknown
  {
    SyncedHasAll(classify, rows, deps);
    forall i | 0 <= i < |deps|
      ensures deps[i].key in Synced(classify, rows, deps)
      ensures Synced(classify, rows, deps)[deps[i].key] == SyncRow(classify, Stored(rows, deps[i].key), deps[i])
    {
      assert deps[i] in deps;
      UpsertedAt(classify, rows, deps, i);
    }
  }

  // Main result: synchronising the same packages again changes nothing.
  lemma SyncTwice(classify: Classifier, rows: Rows, deps: seq<Dep>)
    requires DistinctKeys(deps)
    ensures var once := Synced(classify, rows, deps);
      Synced(classify, once, deps) == once
  {
    var once := Synced(classify, rows, deps);
    var twice := Synced(classify, once, deps);
    SyncOutcome(classify, rows, deps);
    SyncOutcome(classify, once, deps);
    forall k | k in once
      ensures twice[k] == once[k]
    {
      var d :| d in deps && d.key == k;
      var i :| 0 <= i < |deps| && deps[i] == d;
      UpsertedAt(classify, rows, deps, i);
      UpsertedAt(classify, once, deps, i);
    }
  }

  // ----- Lookups in any order

  // A lookup ends with a version or an error text.
  datatype Answer = Answer(latest: string, err: string)

  predicate Succeeded(a: Answer) { a.latest != "" && a.err == "" }

  function AnswerFor(results: map<Key, Answer>, k: Key): Answer {
    if k in results then results[k] else Answer("", "lookup missing")
  }

  function RefreshRow(classify: Classifier, r: Row, a: Answer, now: int): Row {
    if Succeeded(a) then
      r.(latest := a.latest, status := classify(r.current, a.latest), checkError := None, lastChecked := Some(now))
    else
      var text := if a.err != "" then a.err else "lookup failed";
      r.(status := Unknown, checkError := Some(if |text| > 500 then text[..500] else text), lastChecked := Some(now))
  }

  // The results dictionary after the lookups of `order` have finished, one after the other.
  function Collected(deps: seq<Dep>, answers: seq<Answer>, order: seq<nat>): map<Key, Answer>
    requires |answers| == |deps| && forall i :: 0 <= i < |order| ==> order[i] < |deps|
  {
    if order == [] then map[]
    else
      var last := order[|order| - 1];
      Collected(deps, answers, order[..|order| - 1])[deps[last].key := answers[last]]
  }

  function Applied(classify: Classifier, rows: Rows, deps: seq<Dep>, results: map<Key, Answer>, now: int): Rows {
    if deps == [] then rows
    else
      var k := deps[|deps| - 1].key;
      var before := Applied(classify, rows, deps[..|deps| - 1], results, now);
      if k in before then before[k := RefreshRow(classify, before[k], AnswerFor(results, k), now)] else before
  }

  function CountChecked(deps: seq<Dep>, results: map<Key, Answer>): (n: nat)
    ensures n <= |deps|
  {
    if deps == [] then 0
    else
      CountChecked(deps[..|deps| - 1], results)
      + if Succeeded(AnswerFor(results, deps[|deps| - 1].key)) then 1 else 0
  }

  // Every lookup finishes exactly once, in some order.
  ghost predicate Completion(order: seq<nat>, n: nat) {
    && |order| == n
    && (forall i :: 0 <= i < |order| ==> order[i] < n)
    && (forall i, j :: 0 <= i < j < |order| ==> order[i] != order[j])
    && forall i: nat :: i < n ==> i in order
  }

  // What of an answer reaches the stored row: the version of a success, or the cut error text of a failure.
  function Effect(a: Answer): Answer {
    if Succeeded(a) then a
    else
      var text := if a.err != "" then a.err else "lookup failed";
      Answer("", if |text| > 500 then text[..500] else text)
  }

  // The text of a failure: at most 500 characters, and never blank for want of one.
  function ErrorText(err: string): string {
    if err == "" then "lookup failed" else if |err| <= 500 then err else err[..500]
  }

  // Packages listed more than once get answers with the same effect each time.
  ghost predicate DuplicatesAgree(deps: seq<Dep>, answers: seq<Answer>)
    requires |answers| == |deps|
  {
    forall i, j :: 0 <= i < |deps| && 0 <= j < |deps| && deps[i].key == deps[j].key ==>
      Effect(answers[i]) == Effect(answers[j])
  }

  lemma EffectDecidesRow(classify: Classifier, r: Row, a: Answer, b: Answer, now: int)
    ensures RefreshRow(classify, r, a, now) == RefreshRow(classify, r, b, now) <==> Effect(a) == Effect(b)
    ensures RefreshRow(classify, RefreshRow(classify, r, a, now), a, now) == RefreshRow(classify, r, a, now)
  {}

  // An order of all lookups in which the i-th finishes last.
  function EndingWith(n: nat, i: nat): seq<nat>
    requires i < n
  {
    seq(n, k requires 0 <= k < n => if k < i then k else if k < n - 1 then k + 1 else i)
  }

  lemma EndingWithCompletes(n: nat, i: nat)
    requires i < n
    ensures Completion(EndingWith(n, i), n)
  {
    var order := EndingWith(n, i);
    forall j: nat | j < n
      ensures j in order
    {
      assert order[if j < i then j else if j == i then n - 1 else j - 1] == j;
    }
  }

  // A collected result is the answer of some listing of the package.
  lemma {:induction false} CollectedIsAnswer(deps: seq<Dep>, answers: seq<Answer>, order: seq<nat>, i: nat)
    requires |answers| == |deps| && forall j :: 0 <= j < |order| ==> order[j] < |deps|
    requires i in order
    ensures var results := Collected(deps, answers, order);
      exists j :: 0 <= j < |deps| && deps[j].key == deps[i].key && deps[i].key in results && results[deps[i].key] == answers[j]
  {
    var last, front := order[|order| - 1], order[..|order| - 1];
    if deps[last].key == deps[i].key {
      assert Collected(deps, answers, order)[deps[i].key] == answers[last];
    } else {
      assert i in front;
      CollectedIsAnswer(deps, answers, front, i);
      var j :| && 0 <= j < |deps| && deps[j].key == deps[i].key
               && Collected(deps, answers, front)[deps[i].key] == answers[j];
      assert Collected(deps, answers, order)[deps[i].key] == answers[j];
    }
  }

  lemma CollectedEffect(deps: seq<Dep>, answers: seq<Answer>, order: seq<nat>, i: nat)
    requires |answers| == |deps| && Completion(order, |deps|) && DuplicatesAgree(deps, answers) && i < |deps|
    ensures Effect(AnswerFor(Collected(deps, answers, order), deps[i].key)) == Effect(answers[i])
  {
    CollectedIsAnswer(deps, answers, order, i);
  }

  // Every stored package listed is refreshed once with its collected answer, however often it is listed.
  lemma {:induction false} AppliedAt(classify: Classifier, rows: Rows, deps: seq<Dep>, results: map<Key, Answer>, now: int)
    ensures Applied(classify, rows, deps, results, now).Keys == rows.Keys
    ensures forall k :: k in rows ==>
      Applied(classify, rows, deps, results, now)[k]
        == if k in KeysOf(deps) then RefreshRow(classify, rows[k], AnswerFor(results, k), now) else rows[k]
  {
    if deps != [] {
      var front, last := deps[..|deps| - 1], deps[|deps| - 1];
      AppliedAt(classify, rows, front, results, now);
      assert deps[..|front| + 1] == deps;
      KeysGrow(deps, |front|);
      if last.key in rows {
        EffectDecidesRow(classify, rows[last.key], AnswerFor(results, last.key), AnswerFor(results, last.key), now);
      }
    }
  }

  // Answers with the same effects give the same rows and the same counts.
  lemma SameEffectsSameRows(classify: Classifier, rows: Rows, deps: seq<Dep>, now: int,
                            r1: map<Key, Answer>, r2: map<Key, Answer>)
    requires forall i :: 0 <= i < |deps| ==> Effect(AnswerFor(r1, deps[i].key)) == Effect(AnswerFor(r2, deps[i].key))
    ensures Applied(classify, rows, deps, r1, now) == Applied(classify, rows, deps, r2, now)
  {
    AppliedAt(classify, rows, deps, r1, now);
    AppliedAt(classify, rows, deps, r2, now);
    forall k | k in rows
      ensures Applied(classify, rows, deps, r1, now)[k] == Applied(classify, rows, deps, r2, now)[k]
    {
      if k in KeysOf(deps) {
        var d :| d in deps && d.key == k;
        var i :| 0 <= i < |deps| && deps[i] == d;
        EffectDecidesRow(classify, rows[k], AnswerFor(r1, k), AnswerFor(r2, k), now);
      }
    }
  }

  lemma {:induction false} SameEffectsSameCount(deps: seq<Dep>, r1: map<Key, Answer>, r2: map<Key, Answer>)
    requires forall i :: 0 <= i < |deps| ==> Effect(AnswerFor(r1, deps[i].key)) == Effect(AnswerFor(r2, deps[i].key))
    ensures CountChecked(deps, r1) == CountChecked(deps, r2)
  {
    if deps != [] {
      SameEffectsSameCount(deps[..|deps| - 1], r1, r2);
    }
  }

  // The rows and the count of a refresh whose lookups finish in this order.
  function Refreshed(classify: Classifier, rows: Rows, deps: seq<Dep>, answers: seq<Answer>, order: seq<nat>, now: int): (Rows, nat)
    requires |answers| == |deps| && forall i :: 0 <= i < |order| ==> order[i] < |deps|
  {
    var results := Collected(deps, answers, order);
    (Applied(classify, rows, deps, results, now), CountChecked(deps, results))
  }

  // Two listings of a package with different effects: the rows tell which of them finished last.
  lemma DisagreementShows(classify: Classifier, rows: Rows, deps: seq<Dep>, answers: seq<Answer>, now: int, i: nat, j: nat)
    requires |answers| == |deps| && rows.Keys == KeysOf(deps)
    requires i < |deps| && j < |deps| && deps[i].key == deps[j].key && Effect(answers[i]) != Effect(answers[j])
    ensures Completion(EndingWith(|deps|, i), |deps|) && Completion(EndingWith(|deps|, j), |deps|)
    ensures Refreshed(classify, rows, deps, answers, EndingWith(|deps|, i), now).0
         != Refreshed(classify, rows, deps, answers, EndingWith(|deps|, j), now).0
  {
    var n, k := |deps|, deps[i].key;
    var r1, r2 := Collected(deps, answers, EndingWith(n, i)), Collected(deps, answers, EndingWith(n, j));
    EndingWithCompletes(n, i);
    EndingWithCompletes(n, j);
    assert deps[i] in deps;
    assert AnswerFor(r1, k) == answers[i] && AnswerFor(r2, k) == answers[j];
    AppliedAt(classify, rows, deps, r1, now);
    AppliedAt(classify, rows, deps, r2, now);
    EffectDecidesRow(classify, rows[k], answers[i], answers[j], now);
  }

  // Main result: a refresh ends with the same rows and counts whatever the order in which the parallel lookups
  // finish, exactly when packages listed more than once get answers with the same effect.
  lemma RefreshIgnoresOrder(classify: Classifier, rows: Rows, deps: seq<Dep>, answers: seq<Answer>, now: int)
    requires |answers| == |deps| && rows.Keys == KeysOf(deps)
    ensures (forall o1, o2 | Completion(o1, |deps|) && Completion(o2, |deps|) ::
               Refreshed(classify, rows, deps, answers, o1, now) == Refreshed(classify, rows, deps, answers, o2, now))
       <==> DuplicatesAgree(deps, answers)
  {
    if DuplicatesAgree(deps, answers) {
      forall o1, o2 | Completion(o1, |deps|) && Completion(o2, |deps|)
        ensures Refreshed(classify, rows, deps, answers, o1, now) == Refreshed(classify, rows, deps, answers, o2, now)
      {
        var r1, r2 := Collected(deps, answers, o1), Collected(deps, answers, o2);
        forall i | 0 <= i < |deps|
          ensures Effect(AnswerFor(r1, deps[i].key)) == Effect(AnswerFor(r2, deps[i].key))
        {
          CollectedEffect(deps, answers, o1, i);
          CollectedEffect(deps, answers, o2, i);
        }
        SameEffectsSameRows(classify, rows, deps, now, r1, r2);
        SameEffectsSameCount(deps, r1, r2);
      }
    } else {
      var i, j :| && 0 <= i < |deps| && 0 <= j < |deps| && deps[i].key == deps[j].key
                  && Effect(answers[i]) != Effect(answers[j]);
      DisagreementShows(classify, rows, deps, answers, now, i, j);
      assert Refreshed(classify, rows, deps, answers, EndingWith(|deps|, i), now)
          != Refreshed(classify, rows, deps, answers, EndingWith(|deps|, j), now);
    }
  }

  // Distinct packages cannot disagree with themselves.
  lemma DistinctAgree(deps: seq<Dep>, answers: seq<Answer>)
    requires |answers| == |deps| && DistinctKeys(deps)
    ensures DuplicatesAgree(deps, answers)
  {
    forall i, j | 0 <= i < |deps| && 0 <= j < |deps| && deps[i].key == deps[j].key
      ensures i == j
    {}
  }

  function Successes(answers: seq<Answer>): set<nat> { set i: nat | i < |answers| && Succeeded(answers[i]) }

  lemma {:induction false} CheckedAreSuccesses(deps: seq<Dep>, answers: seq<Answer>, results: map<Key, Answer>)
    requires |answers| == |deps|
    requires forall i :: 0 <= i < |deps| ==> Effect(AnswerFor(results, deps[i].key)) == Effect(answers[i])
    ensures CountChecked(deps, results) == |Successes(answers)|
  {
    if deps != [] {
      var n := |deps| - 1;
      CheckedAreSuccesses(deps[..n], answers[..n], results);
      assert Successes(answers) == Successes(answers[..n]) + if Succeeded(answers[n]) then {n} else {};
    }
  }

  // Main result: whatever the completion order, a refresh leaves one row per package. A package whose lookup
  // succeeded has the looked-up version, its classification and no error; any other keeps its latest version and
  // records an error. The number checked is the number of successful lookups.
  lemma RefreshOutcome(classify: Classifier, rows: Rows, deps: seq<Dep>, answers: seq<Answer>, order: seq<nat>, now: int)
    requires |answers| == |deps| && DuplicatesAgree(deps, answers) && Completion(order, |deps|) && rows.Keys == KeysOf(deps)
    ensures var (after, checked) := Refreshed(classify, rows, deps, answers, order, now);
      && after.Keys == KeysOf(deps)
      && checked == |Successes(answers)|
      && forall i :: 0 <= i < |deps| ==>
           var k, a := deps[i].key, answers[i];
           && k in rows && k in after && after[k].lastChecked == Some(now)
           && after[k] == rows[k].(latest := after[k].latest, status := after[k].status,
                                   checkError := after[k].checkError, lastChecked := after[k].lastChecked)
           && (if Succeeded(a)
               then after[k].latest == a.latest && after[k].status == classify(rows[k].current, a.latest) && after[k].checkError.None?
               else after[k].latest == rows[k].latest && after[k].status == Unknown && after[k].checkError == Some(ErrorText(a.err)))
  {
    var results := Collected(deps, answers, order);
    AppliedAt(classify, rows, deps, results, now);
    forall i | 0 <= i < |deps|
      ensures deps[i].key in KeysOf(deps) && Effect(AnswerFor(results, deps[i].key)) == Effect(answers[i])
    {
      assert deps[i] in deps;
      CollectedEffect(deps, answers, order, i);
    }
    CheckedAreSuccesses(deps, answers, results);
  }

  // A stored package listed twice passes the synchronisation, and its row takes the version that arrives last.
  lemma DuplicatesDependOnOrder(classify: Classifier, now: int)
    ensures var d := Dep(Key(Npm, "semver"), "^7", "7.1", "runtime", None, true);
      var stored: Rows := map[d.key := Row("^7", "7.0", "runtime", true, None, "", Unknown, None, None)];
      var rows := Synced(classify, stored, [d, d]);
      var answers := [Answer("7.1", ""), Answer("7.2", "")];
      && !Conflict(stored, [d, d]) && Completion([0, 1], 2) && Completion([1, 0], 2)
      && Refreshed(classify, rows, [d, d], answers, [0, 1], now).0 != Refreshed(classify, rows, [d, d], answers, [1, 0], now).0
  {
    var d := Dep(Key(Npm, "semver"), "^7", "7.1", "runtime", None, true);
    var stored: Rows := map[d.key := Row("^7", "7.0", "runtime", true, None, "", Unknown, None, None)];
    SyncedHasAll(classify, stored, [d, d]);
    assert EndingWith(2, 0) == [1, 0] && EndingWith(2, 1) == [0, 1];
    DisagreementShows(classify, Synced(classify, stored, [d, d]), [d, d], [Answer("7.1", ""), Answer("7.2", "")], now, 0, 1);
  }

  // ----- From the manifests to the rows

  // The packages of both ecosystems together are distinct.
  lemma EcosystemsAreDistinct(python: seq<Dep>, npm: seq<Dep>)
    requires DistinctKeys(python) && DistinctKeys(npm)
    requires forall d :: d in python ==> d.key.ecosystem == Python
    requires forall d :: d in npm ==> d.key.ecosystem == Npm
    ensures DistinctKeys(python + npm) && KeysOf(python + npm) == KeysOf(python) + KeysOf(npm)
  {
    var all := python + npm;
    forall i, j | 0 <= i < j < |all|
      ensures all[i].key != all[j].key
    {
      if i < |python| <= j {
        assert all[i] in python && all[j] in npm;
      }
    }
  }

  lemma {:induction false} FreshDepsArePython(r: Resolver, specs: seq<string>, depType: string, seen: set<string>)
    ensures forall d :: d in FreshDeps(r, specs, depType, seen) ==> d.key.ecosystem == Python
  {
    if specs != [] {
      FreshDepsArePython(r, specs[1..], depType, SeenWith(specs[0], seen));
    }
  }
}
