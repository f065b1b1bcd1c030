/** Converting portal.db to an encrypted file in place (scripts/encrypt_portal_db.py) and
    the start-up guard against a key / file mismatch (app/db_cipher.py), under crashes at
    any point. Encryption is perfect: a file opens only with its own key, with equal contents. */
module EncryptSwap {
  import opened PyText

  datatype Content = Content(tables: nat, rows: seq<int>)

  // A WAL sidecar holds committed tables and rows that are not yet in the main file.
  datatype File = Torn | Zero | Plain(content: Content) | Cipher(key: string, content: Content) | Wal(pending: Content)

  datatype Name = Db | DbWal | Backup(stamp: nat) | BackupWal(stamp: nat) | Temp(stamp: nat)

  type Disk = map<Name, File>

  // What one run does: how many of its atomic effects happen before a crash, and whether
  // the export itself succeeds.
  datatype Attempt = Attempt(stamp: nat, steps: nat, exportOk: bool)

  datatype Outcome = Skipped | Crashed | Failed | Done

  // ----- Contents

  function WithWal(c: Content, disk: Disk): Content {
    if DbWal in disk && disk[DbWal].Wal? then
      Content(c.tables + disk[DbWal].pending.tables, c.rows + disk[DbWal].pending.rows)
    else c
  }

  // A plaintext database, with what its WAL holds.
  predicate IsPlain(disk: Disk) { Db in disk && disk[Db].Plain? }

  predicate Holds(disk: Disk, key: string, c: Content) {
    || (IsPlain(disk) && WithWal(disk[Db].content, disk) == c)
    || (Db in disk && disk[Db] == Cipher(key, c))
  }

  predicate CompleteBackup(disk: Disk, stamp: nat, c: Content) {
    Backup(stamp) in disk && disk[Backup(stamp)] == Plain(c) && BackupWal(stamp) !in disk
  }

  // ----- The atomic effects of one run, in order

  const EFFECTS: nat := 8

  function Effect(k: nat, disk: Disk, key: string, stamp: nat): Disk
    requires k < EFFECTS && IsPlain(disk)
  {
    match k
    // The probe opens and closes the database: the last close checkpoints the WAL.
    case 0 => disk[Db := Plain(WithWal(disk[Db].content, disk))] - {DbWal}
    case 1 => disk - {Temp(stamp)}
    case 2 => disk[Backup(stamp) := Torn]
    case 3 => disk[Backup(stamp) := disk[Db]]
    case 4 => if DbWal in disk then disk[BackupWal(stamp) := disk[DbWal]] else disk
    case 5 => disk[Temp(stamp) := Torn]
    case 6 => disk[Temp(stamp) := Cipher(key, WithWal(disk[Db].content, disk))]
    case _ => if Temp(stamp) in disk then disk[Db := disk[Temp(stamp)]] - {Temp(stamp)} else disk
  }

  // The disk after the first n effects.
  function After(n: nat, disk: Disk, key: string, stamp: nat): (r: Disk)
    requires n <= EFFECTS && IsPlain(disk)
    ensures n < EFFECTS ==> IsPlain(r)
  {
    if n == 0 then disk else Effect(n - 1, After(n - 1, disk, key, stamp), key, stamp)
  }

  // The number of effects a run has when nothing interrupts it: a failed export stops before the
  // copy is complete, an encrypted copy without tables fails its verification.
  function Limit(disk: Disk, a: Attempt): nat
    requires IsPlain(disk)
  {
    if !a.exportOk then 6 else if WithWal(disk[Db].content, disk).tables == 0 then 7 else 8
  }

  function Run(disk: Disk, key: string, a: Attempt): (Disk, Outcome) {
    if !IsPlain(disk) then (disk, Skipped)
    else
      var n := Limit(disk, a);
      if a.steps < n then (After(a.steps, disk, key, a.stamp), Crashed)
      else
        var r := After(n, disk, key, a.stamp);
        (r, if n == EFFECTS && !IsPlain(r) && Verifies(r, Db, key) then Done else Failed)
  }

  // The file opens with the key and has a table.
  predicate Verifies(disk: Disk, name: Name, key: string) {
    name in disk && disk[name].Cipher? && disk[name].key == key && disk[name].content.tables > 0
  }

  // The script itself: every assignment to the disk may be the last one before a crash.
  class Machine {
    var disk: Disk

    constructor (disk: Disk)
      ensures this.disk == disk
    {
      this.disk := disk;
    }

    method EncryptDatabase(key: string, a: Attempt) returns (outcome: Outcome)
      modifies this
      ensures (disk, outcome) == Run(old(disk), key, a)
    {
      if Db !in disk || disk[Db].Zero? {
        return Skipped;
      }
      if !disk[Db].Plain? {
        return Skipped;
      }
      ghost var start := disk;
      var s := a.stamp;
      if a.steps == 0 { return Crashed; }
      disk := disk[Db := Plain(WithWal(disk[Db].content, disk))] - {DbWal};
      assert disk == After(1, start, key, s);
      if a.steps == 1 { return Crashed; }
      if Temp(s) in disk {
        disk := disk - {Temp(s)};
      }
      assert disk == After(2, start, key, s);
      if a.steps == 2 { return Crashed; }
      disk := disk[Backup(s) := Torn];
      assert disk == After(3, start, key, s);
      if a.steps == 3 { return Crashed; }
      disk := disk[Backup(s) := disk[Db]];
      assert disk == After(4, start, key, s);
      if a.steps == 4 { return Crashed; }
      if DbWal in disk {
        disk := disk[BackupWal(s) := disk[DbWal]];
      }
      assert disk == After(5, start, key, s);
      if a.steps == 5 { return Crashed; }
      disk := disk[Temp(s) := Torn];
      assert disk == After(6, start, key, s);
      if !a.exportOk { return Failed; }
      if a.steps == 6 { return Crashed; }
      disk := disk[Temp(s) := Cipher(key, WithWal(disk[Db].content, disk))];
      assert disk == After(7, start, key, s);
      if !Verifies(disk, Temp(s), key) { return Failed; }
      if a.steps == 7 { return Crashed; }
      disk := disk[Db := disk[Temp(s)]] - {Temp(s)};
      assert disk == After(8, start, key, s);
      return if !IsPlain(disk) && Verifies(disk, Db, key) then Done else Failed;
    }
  }

  // ----- Crash safety

  // The database holds c, readable as plaintext or under the key; once it is encrypted, some
  // backup is complete. No backup ever has a WAL sidecar.
  ghost predicate Safe(disk: Disk, key: string, c: Content) {
    && Holds(disk, key, c)
    && (forall s :: BackupWal(s) !in disk)
    && (!IsPlain(disk) ==> exists s :: CompleteBackup(disk, s, c))
  }

  lemma UnfoldAfter(disk: Disk, key: string, stamp: nat)
    requires IsPlain(disk)
    ensures var c := WithWal(disk[Db].content, disk);
      var d1 := disk[Db := Plain(c)] - {DbWal};
      var d2 := d1 - {Temp(stamp)};
      var d4 := d2[Backup(stamp) := Plain(c)];
      && After(1, disk, key, stamp) == d1
      && After(2, disk, key, stamp) == d2
      && After(3, disk, key, stamp) == d2[Backup(stamp) := Torn]
      && After(4, disk, key, stamp) == d4
      && After(5, disk, key, stamp) == d4
      && After(6, disk, key, stamp) == d4[Temp(stamp) := Torn]
      && After(7, disk, key, stamp) == d4[Temp(stamp) := Cipher(key, c)]
      && After(8, disk, key, stamp) == d4[Db := Cipher(key, c)]
  {
    var c := WithWal(disk[Db].content, disk);
    var d4 := (disk[Db := Plain(c)] - {DbWal} - {Temp(stamp)})[Backup(stamp) := Plain(c)];
    assert After(0, disk, key, stamp) == disk;
    assert After(1, disk, key, stamp) == disk[Db := Plain(c)] - {DbWal};
    assert After(2, disk, key, stamp) == disk[Db := Plain(c)] - {DbWal} - {Temp(stamp)};
    assert After(3, disk, key, stamp) == (disk[Db := Plain(c)] - {DbWal} - {Temp(stamp)})[Backup(stamp) := Torn];
    assert After(4, disk, key, stamp) == d4;
    assert After(5, disk, key, stamp) == d4;
    assert After(6, disk, key, stamp) == d4[Temp(stamp) := Torn];
    assert After(7, disk, key, stamp) == d4[Temp(stamp) := Cipher(key, c)];
    assert After(8, disk, key, stamp) == d4[Db := Cipher(key, c)];
  }

  // Main result: whatever the crash point and however the export ends, one run keeps the disk safe.
  lemma RunKeepsSafe(disk: Disk, key: string, c: Content, a: Attempt)
    requires Safe(disk, key, c)
    ensures Safe(Run(disk, key, a).0, key, c)
  {
    if IsPlain(disk) {
      UnfoldAfter(disk, key, a.stamp);
      var r := Run(disk, key, a).0;
      if !IsPlain(r) {
        assert CompleteBackup(r, a.stamp, c);
      }
    }
  }

  function RunAll(disk: Disk, key: string, attempts: seq<Attempt>): Disk
    decreases |attempts|
  {
    if attempts == [] then disk else RunAll(Run(disk, key, attempts[0]).0, key, attempts[1..])
  }

  lemma {:induction false} RunsKeepSafe(disk: Disk, key: string, c: Content, attempts: seq<Attempt>)
    requires Safe(disk, key, c)
    ensures Safe(RunAll(disk, key, attempts), key, c)
    decreases |attempts|
  {
    if attempts != [] {
      RunKeepsSafe(disk, key, c, attempts[0]);
      RunsKeepSafe(Run(disk, key, attempts[0]).0, key, c, attempts[1..]);
    }
  }

  // ----- The start-up guard

  predicate GuardAccepts(disk: Disk, key: Option<string>) {
    if Db !in disk || disk[Db].Zero? then true
    else if key.None? then disk[Db].Plain?
    else !disk[Db].Plain?
  }

  // The guard lets a missing or empty file pass with or without a key, a plaintext one exactly without a key and any
  // other one exactly with a key.
  lemma GuardExactly(disk: Disk, key: Option<string>)
    ensures Db !in disk || disk[Db] == Zero ==> GuardAccepts(disk, key)
    ensures Db in disk && disk[Db].Plain? ==> (GuardAccepts(disk, key) <==> key == None)
    ensures Db in disk && (disk[Db].Cipher? || disk[Db].Torn?) ==> (GuardAccepts(disk, key) <==> key != None)
  {}

  // The engine also reads the schema with the configured key.
  predicate EngineOpens(disk: Disk, key: Option<string>) {
    && GuardAccepts(disk, key)
    && (key.Some? && Db in disk && !disk[Db].Zero? ==> disk[Db].Cipher? && disk[Db].key == key.value)
  }

  // A run that nothing interrupts.
  predicate Uninterrupted(a: Attempt) { a.steps >= EFFECTS && a.exportOk }

  // Main result: from a plaintext database with tables, after any sequence of runs that crash or fail
  // anywhere, one uninterrupted run ends with the database encrypted, with equal contents and a
  // complete plaintext backup; the guard then accepts the key and rejects its absence.
  lemma RerunEndsEncrypted(disk: Disk, key: string, attempts: seq<Attempt>, last: Attempt)
    requires IsPlain(disk) && WithWal(disk[Db].content, disk).tables > 0 && forall s :: BackupWal(s) !in disk
    requires Uninterrupted(last)
    ensures var c := WithWal(disk[Db].content, disk);
      var r := Run(RunAll(disk, key, attempts), key, last).0;
      && Db in r && r[Db] == Cipher(key, c)
      && (exists s :: CompleteBackup(r, s, c))
      && EngineOpens(r, Some(key)) && !GuardAccepts(r, None)
      && forall other :: other != key ==> !EngineOpens(r, Some(other))
  {
    var c := WithWal(disk[Db].content, disk);
    RunsKeepSafe(disk, key, c, attempts);
    var middle := RunAll(disk, key, attempts);
    RunKeepsSafe(middle, key, c, last);
    if IsPlain(middle) {
      assert WithWal(middle[Db].content, middle) == c;
      UnfoldAfter(middle, key, last.stamp);
    }
  }

  // An uninterrupted run on a plaintext database encrypts it, and passes the checks after the replacement,
  // exactly when it has a table, be it in the main file or in the WAL. Without one it
  // fails, the database stays in plaintext with its contents, and the guard refuses the key.
  lemma EncryptsIffTables(disk: Disk, key: string, a: Attempt)
    requires IsPlain(disk) && Uninterrupted(a)
    ensures var r := Run(disk, key, a);
      && (r.1 == Done <==> WithWal(disk[Db].content, disk).tables > 0)
      && (r.1 == Done <==> !IsPlain(r.0))
      && (r.1 != Done ==> r.1 == Failed && r.0[Db] == Plain(WithWal(disk[Db].content, disk))
                          && !GuardAccepts(r.0, Some(key)))
  {
    UnfoldAfter(disk, key, a.stamp);
  }

  // A second run after a completed one does nothing.
  lemma CompletedIsIdempotent(disk: Disk, key: string, a: Attempt, b: Attempt)
    requires Run(disk, key, a).1 == Done
    ensures Run(Run(disk, key, a).0, key, b) == (Run(disk, key, a).0, Skipped)
  {
    UnfoldAfter(disk, key, a.stamp);
  }

  // A database without tables: the run fails, the file stays in plaintext and the guard refuses the key.
  lemma TablelessStaysPlain(key: string)
    ensures var disk := map[Db := Plain(Content(0, []))];
      var r := Run(disk, key, Attempt(7, EFFECTS, true));
      r.1 == Failed && r.0[Db] == Plain(Content(0, [])) && !GuardAccepts(r.0, Some(key))
  {
    EncryptsIffTables(map[Db := Plain(Content(0, []))], key, Attempt(7, EFFECTS, true));
  }
}
