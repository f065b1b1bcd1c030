/** Retention of the portal.db backups (scripts/purge-portal-db-backups.py): keep the
    newest N files and the newest backup of each recent day, compress what is kept
    outside the newest N, and delete the rest. */
module BackupPurge {
  import opened PyText

  // A directory entry: a backup of a stamp (seconds on the UTC calendar), its compressed
  // form, or a file that the purge does not recognise.
  datatype Name = Plain(stamp: nat) | Zipped(stamp: nat) | Other(text: string)

  // File contents; compressing is injective.
  datatype Blob = Bytes(data: seq<int>) | Gzip(of: Blob)

  type Files = map<Name, Blob>

  // The calendar day of a stamp.
  function Day(s: nat): nat { s / 86_400 }

  // Clocks and cutoffs count microseconds.
  function Micros(s: nat): nat { s * 1_000_000 }

  function Cutoff(now: int, dailyDays: int): int { now - dailyDays * 86_400_000_000 }

  // Stamps of one day are those between two midnights.
  lemma DayIsCalendarDay(s: nat, d: nat)
    ensures Day(s) == d <==> d * 24 * 60 * 60 <= s < (d + 1) * 24 * 60 * 60
  {}

  // At a clock of whole seconds, a stamp is inside the window exactly when it is at most that many days old.
  lemma WindowIsDays(s: nat, now: nat, dailyDays: nat)
    ensures Micros(s) >= Cutoff(Micros(now), dailyDays) <==> now - s <= dailyDays * 24 * 60 * 60
  {}

  // ----- What a purge must leave

  function StampOf(n: Name): nat { if n.Other? then 0 else n.stamp }

  function Backups(files: Files): set<Name> { set n | n in files && !n.Other? }

  function Stamps(files: Files): set<nat> { set n | n in Backups(files) :: StampOf(n) }

  function Newer(files: Files, s: nat): set<Name> { set n | n in Backups(files) && StampOf(n) > s }

  // One of the stamp's files is among the newest `count` backup files.
  predicate IsTop(files: Files, count: nat, s: nat) { |Newer(files, s)| < count }

  // The newest stamp of its day, not older than the cutoff (in microseconds).
  predicate IsDayBest(files: Files, cutoff: int, s: nat) {
    && Micros(s) >= cutoff
    && forall r :: r in Stamps(files) && Day(r) == Day(s) ==> r <= s
  }

  function Top(files: Files, count: nat): set<nat> {
    set s | s in Stamps(files) && IsTop(files, count, s)
  }

  function Kept(files: Files, count: nat, cutoff: int): set<nat> {
    Top(files, count) + set s | s in Stamps(files) && IsDayBest(files, cutoff, s)
  }

  // Top stamps keep both forms, other kept stamps only a compressed one, the rest nothing.
  predicate Survives(keep: set<nat>, top: set<nat>, n: Name) {
    n.Other? || (n.stamp in keep && (n.stamp in top || n.Zipped?))
  }

  function Swept(files: Files, keep: set<nat>, top: set<nat>): Files {
    var zipped := set s | s in keep - top && Plain(s) in files :: Zipped(s);
    map n | n in (set n | n in files && Survives(keep, top, n)) + zipped ::
      if n in files then files[n] else Gzip(files[Plain(StampOf(n))])
  }

  function Purged(files: Files, count: nat, cutoff: int): Files {
    Swept(files, Kept(files, count, cutoff), Top(files, count))
  }

  // ----- One stamp at a time

  function Gzipped(files: Files, s: nat): Files
    requires Plain(s) in files
  {
    (if Zipped(s) in files then files else files[Zipped(s) := Gzip(files[Plain(s)])]) - {Plain(s)}
  }

  function SweepOne(files: Files, s: nat, keep: set<nat>, top: set<nat>): Files {
    if s !in keep then files - {Plain(s), Zipped(s)}
    else if s !in top && Plain(s) in files then Gzipped(files, s)
    else files
  }

  lemma SweepOneStep(start: Files, files: Files, seen: set<nat>, s: nat, keep: set<nat>, top: set<nat>)
    requires SweptUpTo(start, files, seen, keep, top) && s !in seen
    ensures SweptUpTo(start, SweepOne(files, s, keep, top), seen + {s}, keep, top)
  {
    var target, next := Swept(start, keep, top), SweepOne(files, s, keep, top);
    assert Plain(s) in files <==> Plain(s) in start;
    assert Zipped(s) in files <==> Zipped(s) in start;
    forall n: Name | !n.Other? && n.stamp == s
      ensures n in next <==> n in target
      ensures n in next && n in target ==> next[n] == target[n]
    {
      assert n == Plain(s) || n == Zipped(s);
    }
  }

  // The files after the stamps of the first i entries, each stamp once.
  function SweptFirst(files: Files, entries: seq<Name>, i: nat, keep: set<nat>, top: set<nat>): Files
    requires i <= |entries|
  {
    if i == 0 then files
    else
      var before := SweptFirst(files, entries, i - 1, keep, top);
      var s := StampOf(entries[i - 1]);
      if s in TopStamps(entries, i - 1) then before else SweepOne(before, s, keep, top)
  }

  lemma TopStampsGrow(entries: seq<Name>, i: nat)
    requires i < |entries|
    ensures TopStamps(entries, i + 1) == TopStamps(entries, i) + {StampOf(entries[i])}
  {
    assert i < i + 1;
    assert StampOf(entries[i]) in TopStamps(entries, i + 1);
  }

  lemma OneMoreDropped(seen: set<nat>, s: nat, keep: set<nat>)
    requires s !in seen
    ensures |seen + {s} - keep| == |seen - keep| + if s in keep then 0 else 1
  {
    assert seen + {s} - keep == (seen - keep) + (if s in keep then {} else {s});
  }

  lemma {:induction false} SweptFirstUpTo(start: Files, entries: seq<Name>, i: nat, keep: set<nat>, top: set<nat>)
    requires i <= |entries|
    ensures SweptUpTo(start, SweptFirst(start, entries, i, keep, top), TopStamps(entries, i), keep, top)
  {
    if i > 0 {
      SweptFirstUpTo(start, entries, i - 1, keep, top);
      var s := StampOf(entries[i - 1]);
      TopStampsGrow(entries, i - 1);
      if s !in TopStamps(entries, i - 1) {
        SweepOneStep(start, SweptFirst(start, entries, i - 1, keep, top), TopStamps(entries, i - 1), s, keep, top);
      } else {
        assert TopStamps(entries, i) == TopStamps(entries, i - 1);
      }
    }
  }

  lemma SweptFirstAll(start: Files, entries: seq<Name>, keep: set<nat>, top: set<nat>)
    requires IsListing(entries, start)
    ensures TopStamps(entries, |entries|) == Stamps(start)
    ensures SweptFirst(start, entries, |entries|, keep, top) == Swept(start, keep, top)
  {
    forall s
      ensures s in TopStamps(entries, |entries|) <==> s in Stamps(start)
    {
      if s in TopStamps(entries, |entries|) {
        var i :| 0 <= i < |entries| && StampOf(entries[i]) == s;
        assert entries[i] in Backups(start);
      }
      if s in Stamps(start) {
        var n :| n in Backups(start) && StampOf(n) == s;
        assert n in entries;
      }
    }
    SweptFirstUpTo(start, entries, |entries|, keep, top);
    SweptAll(start, SweptFirst(start, entries, |entries|, keep, top), keep, top);
  }

  // ----- The directory and the purge itself

  // Newest stamp first; of one stamp, the plain file before the compressed one.
  function Rank(n: Name): nat { 2 * StampOf(n) + if n.Plain? then 1 else 0 }

  ghost predicate IsListing(entries: seq<Name>, files: Files) {
    && (forall n :: n in entries <==> n in Backups(files))
    && (forall i, j :: 0 <= i < j < |entries| ==> Rank(entries[i]) > Rank(entries[j]))
  }

  // The stamps of the first `count` entries.
  function TopStamps(entries: seq<Name>, count: nat): set<nat> {
    set i | 0 <= i < |entries| && i < count :: StampOf(entries[i])
  }

  class BackupDirectory {
    var files: Files

    constructor (files: Files)
      ensures this.files == files
    {
      this.files := files;
    }

    // The sorted directory scan.
    method Scan() returns (entries: seq<Name>)
      ensures IsListing(entries, files)
    {
      entries := [];
      var rest := Backups(files);
      while rest != {}
        invariant rest <= Backups(files)
        invariant forall n :: n in Backups(files) <==> n in rest || n in entries
        invariant forall i, n :: 0 <= i < |entries| && n in rest ==> Rank(entries[i]) > Rank(n)
        invariant forall i, j :: 0 <= i < j < |entries| ==> Rank(entries[i]) > Rank(entries[j])
        decreases rest
      {
        HasHighest(rest);
        var n :| n in rest && forall m :: m in rest ==> Rank(m) <= Rank(n);
        entries := entries + [n];
        rest := rest - {n};
      }
    }

    // Delete both forms of a stamp (`unlink(missing_ok=True)` twice).
    method Delete(s: nat)
      modifies this
      ensures files == old(files) - {Plain(s), Zipped(s)}
    {
      files := files - {Plain(s)};
      files := files - {Zipped(s)};
    }

    // Compress the plain file; an existing compressed form is trusted as it is.
    method GzipFile(s: nat)
      requires Plain(s) in files
      modifies this
      ensures files == Gzipped(old(files), s)
    {
      if Zipped(s) in files {
        files := files - {Plain(s)};
        return;
      }
      files := files[Zipped(s) := Gzip(files[Plain(s)])];
      files := files - {Plain(s)};
    }

    // The newest in-window stamp of each day.
    method NewestPerDay(entries: seq<Name>, cutoff: int) returns (byDay: map<nat, nat>)
      ensures BestByDay(byDay, entries, cutoff)
    {
      byDay := map[];
      for i := 0 to |entries|
        invariant BestByDay(byDay, entries[..i], cutoff)
      {
        var s := StampOf(entries[i]);
        ghost var before := byDay;
        if Micros(s) >= cutoff {
          if Day(s) !in byDay || s > byDay[Day(s)] {
            byDay := byDay[Day(s) := s];
          }
        }
        assert entries[..i + 1] == entries[..i] + [entries[i]];
        BestByDayGrows(before, byDay, entries[..i], entries[i], cutoff);
      }
      assert entries[..|entries|] == entries;
    }

    // Delete, compress or leave one stamp.
    method SweepStamp(s: nat, keep: set<nat>, topN: set<nat>) returns (deleted: bool)
      modifies this
      ensures files == SweepOne(old(files), s, keep, topN)
      ensures deleted <==> s !in keep
    {
      if s !in keep {
        Delete(s);
        return true;
      }
      if s !in topN && Plain(s) in files {
        GzipFile(s);
      }
      return false;
    }

    // The stamps in listing order, each handled once.
    method Sweep(entries: seq<Name>, keep: set<nat>, topN: set<nat>) returns (removed: nat)
      modifies this
      ensures files == SweptFirst(old(files), entries, |entries|, keep, topN)
      ensures removed == |TopStamps(entries, |entries|) - keep|
    {
      removed := 0;
      var seen: set<nat> := {};
      for i := 0 to |entries|
        invariant seen == TopStamps(entries, i)
        invariant removed == |seen - keep|
        invariant files == SweptFirst(old(files), entries, i, keep, topN)
      {
        var s := StampOf(entries[i]);
        TopStampsGrow(entries, i);
        if s in seen {
          assert seen + {s} == seen;
          continue;
        }
        OneMoreDropped(seen, s, keep);
        seen := seen + {s};
        var deleted := SweepStamp(s, keep, topN);
        removed := removed + if deleted then 1 else 0;
      }
    }

    // The whole purge, at clock `now` (microseconds).
    method Purge(keepCount: nat, dailyDays: int, now: int) returns (kept: nat, removed: nat)
      modifies this
      ensures files == Purged(old(files), keepCount, Cutoff(now, dailyDays))
      ensures kept == |Kept(old(files), keepCount, Cutoff(now, dailyDays))|
      ensures removed == |Stamps(old(files)) - Kept(old(files), keepCount, Cutoff(now, dailyDays))|
    {
      var entries := Scan();
      var topN := TopStamps(entries, keepCount);
      var cutoff := Cutoff(now, dailyDays);
      var byDay := NewestPerDay(entries, cutoff);
      var keep := topN + byDay.Values;
      TopStampsAreTop(entries, files, keepCount);
      KeepIsKept(entries, files, keepCount, cutoff, byDay);
      SweptFirstAll(files, entries, keep, topN);
      removed := Sweep(entries, keep, topN);
      kept := |keep|;
    }
  }

  // After some of the entries, `byDay` holds the newest in-window stamp of each of their days.
  ghost predicate BestByDay(byDay: map<nat, nat>, entries: seq<Name>, cutoff: int)
  {
    && (forall d :: d in byDay ==>
         && Day(byDay[d]) == d && Micros(byDay[d]) >= cutoff
         && exists i :: 0 <= i < |entries| && StampOf(entries[i]) == byDay[d])
    && (forall i :: 0 <= i < |entries| && Micros(StampOf(entries[i])) >= cutoff ==>
         && Day(StampOf(entries[i])) in byDay && StampOf(entries[i]) <= byDay[Day(StampOf(entries[i]))])
  }

  lemma BestByDayGrows(before: map<nat, nat>, after: map<nat, nat>, entries: seq<Name>, e: Name, cutoff: int)
    requires BestByDay(before, entries, cutoff)
    requires var s := StampOf(e);
      after == if Micros(s) >= cutoff && (Day(s) !in before || s > before[Day(s)]) then before[Day(s) := s] else before
    ensures BestByDay(after, entries + [e], cutoff)
  {
    var all := entries + [e];
    assert all[|entries|] == e;
    forall d | d in after
      ensures exists i :: 0 <= i < |all| && StampOf(all[i]) == after[d]
    {
      if d in before && after[d] == before[d] {
        var i :| 0 <= i < |entries| && StampOf(entries[i]) == before[d];
        assert all[i] == entries[i];
      }
    }
    forall i | 0 <= i < |all|
      ensures i < |entries| ==> all[i] == entries[i]
    {}
  }

  // The files of the seen stamps are final, all others are as at the start.
  ghost predicate SweptUpTo(start: Files, files: Files, seen: set<nat>, keep: set<nat>, top: set<nat>) {
    var target := Swept(start, keep, top);
    && (forall n: Name :: !n.Other? && n.stamp in seen ==>
         && (n in files <==> n in target)
         && (n in files && n in target ==> files[n] == target[n]))
    && (forall n: Name :: n.Other? || n.stamp !in seen ==>
         && (n in files <==> n in start)
         && (n in files && n in start ==> files[n] == start[n]))
  }

  lemma SweptAll(start: Files, files: Files, keep: set<nat>, top: set<nat>)
    requires SweptUpTo(start, files, Stamps(start), keep, top)
    ensures files == Swept(start, keep, top)
  {
    var target := Swept(start, keep, top);
    forall n: Name
      ensures n in files <==> n in target
      ensures n in files && n in target ==> files[n] == target[n]
    {
      if !n.Other? && n.stamp !in Stamps(start) {
        assert n !in Backups(start) && Plain(n.stamp) !in Backups(start);
      }
    }
  }

  lemma {:induction false} HasHighest(names: set<Name>)
    requires names != {}
    ensures exists n :: n in names && forall m :: m in names ==> Rank(m) <= Rank(n)
  {
    var n :| n in names;
    if names - {n} != {} {
      HasHighest(names - {n});
      var h :| h in names - {n} && forall m :: m in names - {n} ==> Rank(m) <= Rank(h);
      var best := if Rank(h) >= Rank(n) then h else n;
      forall m | m in names
        ensures Rank(m) <= Rank(best)
      {
        assert m == n || m in names - {n};
      }
    } else {
      assert names == {n};
    }
  }

  lemma {:induction false} DistinctCount(entries: seq<Name>)
    requires forall i, j :: 0 <= i < j < |entries| ==> entries[i] != entries[j]
    ensures |set n | n in entries| == |entries|
  {
    if entries != [] {
      var last, front := entries[|entries| - 1], entries[..|entries| - 1];
      DistinctCount(front);
      assert (set n | n in entries) == (set n | n in front) + {last};
    }
  }

  // The files of newer stamps are the entries before the first entry of the stamp.
  lemma NewerIsPrefix(entries: seq<Name>, files: Files, f: nat)
    requires IsListing(entries, files) && f < |entries|
    requires forall i :: 0 <= i < f ==> StampOf(entries[i]) != StampOf(entries[f])
    ensures |Newer(files, StampOf(entries[f]))| == f
  {
    var s := StampOf(entries[f]);
    forall m | m in Newer(files, s)
      ensures m in entries[..f]
    {
      var k :| 0 <= k < |entries| && entries[k] == m;
      assert k < f;
    }
    forall m | m in entries[..f]
      ensures m in Newer(files, s)
    {
      var k :| 0 <= k < f && entries[k] == m;
      assert Rank(entries[k]) > Rank(entries[f]) && StampOf(entries[k]) != s;
    }
    assert Newer(files, s) == set m | m in entries[..f];
    DistinctCount(entries[..f]);
  }

  // A stamp is among the first `count` entries exactly when fewer than `count` files are newer.
  lemma TopStampsAreTop(entries: seq<Name>, files: Files, count: nat)
    requires IsListing(entries, files)
    ensures TopStamps(entries, count) == Top(files, count)
  {
    forall s
      ensures s in TopStamps(entries, count) <==> s in Top(files, count)
    {
      if s in TopStamps(entries, count) {
        var i :| 0 <= i < |entries| && i < count && StampOf(entries[i]) == s;
        assert entries[i] in Backups(files);
      }
      if s in Stamps(files) {
        var n :| n in Backups(files) && StampOf(n) == s;
        assert n in entries;
        FirstIndex(entries, s);
        var f :| 0 <= f < |entries| && StampOf(entries[f]) == s
                 && forall i :: 0 <= i < f ==> StampOf(entries[i]) != s;
        NewerIsPrefix(entries, files, f);
        assert s in TopStamps(entries, count) <==> f < count;
      }
    }
  }

  lemma {:induction false} FirstIndex(entries: seq<Name>, s: nat)
    requires exists i :: 0 <= i < |entries| && StampOf(entries[i]) == s
    ensures exists f :: (0 <= f < |entries| && StampOf(entries[f]) == s
                         && forall i :: 0 <= i < f ==> StampOf(entries[i]) != s)
  {
    var f :| 0 <= f < |entries| && StampOf(entries[f]) == s;
    if exists i :: 0 <= i < f && StampOf(entries[i]) == s {
      FirstIndex(entries[..f], s);
      var g :| 0 <= g < f && StampOf(entries[..f][g]) == s && forall i :: 0 <= i < g ==> StampOf(entries[..f][i]) != s;
      assert StampOf(entries[g]) == s && forall i :: 0 <= i < g ==> entries[..f][i] == entries[i];
    }
  }

  lemma KeepIsKept(entries: seq<Name>, files: Files, count: nat, cutoff: int, byDay: map<nat, nat>)
    requires IsListing(entries, files) && BestByDay(byDay, entries, cutoff)
    requires TopStamps(entries, count) == Top(files, count)
    ensures TopStamps(entries, count) + byDay.Values == Kept(files, count, cutoff)
  {
    assert forall s :: s in Stamps(files) <==> exists i :: 0 <= i < |entries| && StampOf(entries[i]) == s by {
      assert forall i :: 0 <= i < |entries| ==> entries[i] in Backups(files);
      assert forall n :: n in Backups(files) ==> n in entries;
    }
    forall s | s in byDay.Values
      ensures s in Kept(files, count, cutoff)
    {
      var d :| d in byDay && byDay[d] == s;
      assert IsDayBest(files, cutoff, s);
    }
    forall s | s in Stamps(files) && IsDayBest(files, cutoff, s)
      ensures s in byDay.Values
    {
      var i :| 0 <= i < |entries| && StampOf(entries[i]) == s;
      assert byDay[Day(s)] in Stamps(files);
      assert byDay[Day(s)] == s;
    }
  }

  // ----- What a purge leaves behind

  // Main result: the surviving stamps are exactly the kept ones. Top stamps keep both their
  // files as they were, other survivors are only compressed, unknown files are not touched.
  lemma SurvivorsAreKept(files: Files, count: nat, cutoff: int)
    ensures var after := Purged(files, count, cutoff);
      && Stamps(after) == Kept(files, count, cutoff)
      && (forall n: Name :: n.Other? || n.stamp in Top(files, count) ==>
           && (n in after <==> n in files)
           && (n in after && n in files ==> after[n] == files[n]))
      && (forall s :: s in Kept(files, count, cutoff) - Top(files, count) ==>
           Plain(s) !in after && Zipped(s) in after)
  {
    var after := Purged(files, count, cutoff);
    forall s | s in Kept(files, count, cutoff)
      ensures s in Stamps(after)
      ensures s !in Top(files, count) ==> Plain(s) !in after && Zipped(s) in after
    {
      var n :| n in Backups(files) && StampOf(n) == s;
      assert n == Plain(s) || n == Zipped(s);
      assert Zipped(s) in after || n in after;
      assert Zipped(s) in Backups(after) || n in Backups(after);
    }
    forall s | s in Stamps(after)
      ensures s in Kept(files, count, cutoff)
    {
      var n :| n in Backups(after) && StampOf(n) == s;
    }
  }

  // kept + removed, the pair the purge returns, is the number of distinct stamps.
  lemma EveryStampIsCounted(files: Files, count: nat, cutoff: int)
    ensures |Kept(files, count, cutoff)| + |Stamps(files) - Kept(files, count, cutoff)| == |Stamps(files)|
  {
    var kept := Kept(files, count, cutoff);
    assert Stamps(files) == kept + (Stamps(files) - kept);
  }

  // The bytes a backup of a stamp restores to, preferring the plain file.
  function Restore(files: Files, s: nat): Option<Blob> {
    if Plain(s) in files then Some(files[Plain(s)])
    else if Zipped(s) in files then Unzip(files[Zipped(s)])
    else None
  }

  // None for an archive that cannot be read.
  function Unzip(b: Blob): Option<Blob> { if b.Gzip? then Some(b.of) else None }

  // A kept backup still restores to the same bytes exactly when it is a top stamp or an existing
  // compressed form next to its plain file held those same bytes.
  lemma RestoreIsKept(files: Files, count: nat, cutoff: int, s: nat)
    requires s in Kept(files, count, cutoff)
    ensures Restore(Purged(files, count, cutoff), s) == Restore(files, s)
       <==> (|| s in Top(files, count) || Plain(s) !in files || Zipped(s) !in files
             || Unzip(files[Zipped(s)]) == Some(files[Plain(s)]))
  {
    SurvivorsAreKept(files, count, cutoff);
  }

  // A stamp whose two forms hold different bytes, pushed out of the newest files: it then restores to the
  // compressed form's bytes, no longer to those of the plain file.
  lemma DifferentFormsAreLost()
    ensures var former, newest := Plain(86_400), Plain(172_800);
      var files := map[former := Bytes([1]), Zipped(86_400) := Gzip(Bytes([2])), newest := Bytes([3])];
      && 86_400 in Kept(files, 1, 0)
      && Restore(files, 86_400) == Some(Bytes([1])) && Restore(Purged(files, 1, 0), 86_400) == Some(Bytes([2]))
  {
    var files := map[Plain(86_400) := Bytes([1]), Zipped(86_400) := Gzip(Bytes([2])), Plain(172_800) := Bytes([3])];
    assert Backups(files) == {Plain(86_400), Zipped(86_400), Plain(172_800)};
    assert Plain(172_800) in Newer(files, 86_400);
    assert Plain(86_400) in Backups(files) && Zipped(86_400) in Backups(files);
    assert 86_400 in Stamps(files);
    assert |Newer(files, 86_400)| >= 1;
    SurvivorsAreKept(files, 1, 0);
  }

  // ----- A second purge at the same clock

  lemma {:induction false} HasLargest(stamps: set<nat>)
    requires stamps != {}
    ensures exists s :: s in stamps && forall r :: r in stamps ==> r <= s
  {
    var s :| s in stamps;
    if stamps - {s} != {} {
      HasLargest(stamps - {s});
      var m :| m in stamps - {s} && forall r :: r in stamps - {s} ==> r <= m;
      var t := if m >= s then m else s;
      forall r | r in stamps
        ensures r <= t
      {
        assert r == s || r in stamps - {s};
      }
    } else {
      assert stamps == {s};
    }
  }

  lemma NewerShrinks(files: Files, r: nat, s: nat)
    requires r >= s
    ensures Newer(files, r) <= Newer(files, s)
    ensures |Newer(files, r)| <= |Newer(files, s)|
  {
    SubsetCard(Newer(files, r), Newer(files, s));
  }

  lemma {:induction false} SubsetCard(a: set<Name>, b: set<Name>)
    requires a <= b
    ensures |a| <= |b|
  {
    assert b == a + (b - a);
  }

  lemma NewerSurvive(files: Files, count: nat, cutoff: int, s: nat)
    requires s in Top(files, count)
    ensures Newer(files, s) <= Newer(Purged(files, count, cutoff), s)
  {
    SurvivorsAreKept(files, count, cutoff);
    forall n | n in Newer(files, s)
      ensures n in Newer(Purged(files, count, cutoff), s)
    {
      NewerShrinks(files, StampOf(n), s);
      assert StampOf(n) in Top(files, count);
    }
  }

  lemma TopStaysTop(files: Files, count: nat, cutoff: int, s: nat)
    requires s in Top(files, count)
    ensures Newer(Purged(files, count, cutoff), s) == Newer(files, s)
  {
    var after := Purged(files, count, cutoff);
    NewerSurvive(files, count, cutoff, s);
    SurvivorsAreKept(files, count, cutoff);
    forall n | n in Newer(after, s)
      ensures n in Newer(files, s)
    {
      assert StampOf(n) in Stamps(after);
      var m :| m in Backups(files) && StampOf(m) == StampOf(n);
      assert m in Newer(files, s);
      NewerShrinks(files, StampOf(n), s);
      assert StampOf(n) in Top(files, count);
    }
  }

  lemma NonTopStaysNonTop(files: Files, count: nat, cutoff: int, s: nat)
    requires s in Stamps(files) - Top(files, count)
    ensures !IsTop(Purged(files, count, cutoff), count, s)
  {
    var after := Purged(files, count, cutoff);
    SurvivorsAreKept(files, count, cutoff);
    var low := Stamps(files) - Top(files, count);
    HasLargest(low);
    var m :| m in low && forall r :: r in low ==> r <= m;
    forall n | n in Newer(files, m)
      ensures n in Newer(after, s)
    {
      assert StampOf(n) in Stamps(files) && StampOf(n) !in low;
    }
    SubsetCard(Newer(files, m), Newer(after, s));
  }

  lemma TopIsStable(files: Files, count: nat, cutoff: int, s: nat)
    requires s in Stamps(Purged(files, count, cutoff)) && s in Stamps(files)
    ensures s in Top(Purged(files, count, cutoff), count) <==> s in Top(files, count)
  {
    if s in Top(files, count) {
      TopStaysTop(files, count, cutoff, s);
    } else {
      NonTopStaysNonTop(files, count, cutoff, s);
    }
  }

  lemma AllSurvivorsKeptAgain(files: Files, count: nat, cutoff: int)
    ensures var after := Purged(files, count, cutoff);
      && Kept(after, count, cutoff) == Stamps(after)
      && forall s :: s in Stamps(after) ==> s in Stamps(files) && (s in Top(after, count) <==> s in Top(files, count))
  {
    var after := Purged(files, count, cutoff);
    SurvivorsAreKept(files, count, cutoff);
    assert Stamps(after) <= Stamps(files);
    forall s | s in Stamps(after)
      ensures s in Kept(after, count, cutoff)
      ensures s in Top(after, count) <==> s in Top(files, count)
    {
      TopIsStable(files, count, cutoff, s);
    }
    assert Kept(after, count, cutoff) == Stamps(after);
  }

  // Main result: purging again at the same clock changes no file.
  lemma PurgeTwice(files: Files, count: nat, cutoff: int)
    ensures var after := Purged(files, count, cutoff);
      && Purged(after, count, cutoff) == after
      && Kept(after, count, cutoff) == Stamps(after)
  {
    var after := Purged(files, count, cutoff);
    AllSurvivorsKeptAgain(files, count, cutoff);
    SurvivorsAreKept(files, count, cutoff);
    SweepNothing(after, Stamps(after), Top(after, count));
  }

  // Sweeping removes and compresses nothing when all stamps are kept and all others than the top ones are compressed.
  lemma SweepNothing(files: Files, keep: set<nat>, top: set<nat>)
    requires keep == Stamps(files)
    requires forall s :: Plain(s) in files ==> s in top
    ensures Swept(files, keep, top) == files
  {
    forall n: Name
      ensures n in Swept(files, keep, top) <==> n in files
    {
      if !n.Other? && n in files {
        assert n in Backups(files) && StampOf(n) in Stamps(files);
      }
    }
  }
}
