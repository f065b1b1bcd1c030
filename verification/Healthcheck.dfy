/** The container health probe (app/healthcheck.py): a consecutive-failure counter kept in a file,
    the decision to restart a frozen application, and the processes that decision reaches. */
module Healthcheck {
  import opened PyText

  // ----- Numerals

  // `int(s)` on ASCII text without surrounding blanks: a sign, then digits with single underscores between.
  function IntValue(s: string): Option<int> {
    if s != "" && s[0] == '-' then
      var n := NatValue(s[1..]);
      if n.Some? then Some(-n.value) else None
    else if s != "" && s[0] == '+' then NatValue(s[1..])
    else NatValue(s)
  }

  function NatValue(s: string): (n: Option<int>)
    ensures n.Some? ==> n.value >= 0
  {
    var groups := Split(s, '_');
    if forall i :: 0 <= i < |groups| ==> groups[i] != "" && AllDigits(groups[i]) then
      JoinedDigits(groups);
      Some(DecimalValue(Join(groups)))
    else None
  }

  function Join(parts: seq<string>): string {
    if parts == [] then "" else parts[0] + Join(parts[1..])
  }

  lemma JoinedDigits(groups: seq<string>)
    requires forall i :: 0 <= i < |groups| ==> AllDigits(groups[i])
    ensures AllDigits(Join(groups))
  {}

  lemma DecimalIsRead(n: nat)
    ensures IntValue(Decimal(n)) == Some(n)
  {
    var s := Decimal(n);
    DecimalRoundTrip(n);
    assert IsDigit(s[0]) && '_' !in s;
    SplitOne(s, '_');
    assert Join([s]) == s + Join([]) == s;
  }

  // Signs, and a single underscore between digits.
  lemma SignsAreRead(n: nat)
    ensures var number: int := n; IntValue("-" + Decimal(n)) == Some(-number) && IntValue("+" + Decimal(n)) == Some(number)
  {
    var s := Decimal(n);
    DecimalIsRead(n);
    assert ("-" + s)[1..] == s && ("+" + s)[1..] == s;
    assert IsDigit(s[0]);
  }

  lemma UnderscoreIsRead(a: nat, b: nat)
    ensures IntValue(Decimal(a) + "_" + Decimal(b)) == Some(DecimalValue(Decimal(a) + Decimal(b)))
  {
    var x, y := Decimal(a), Decimal(b);
    assert '_' !in x && '_' !in y;
    SplitCons(x, '_', y);
    SplitOne(y, '_');
    assert x + ['_'] + y == x + "_" + y && IsDigit(x[0]);
    assert Join([x, y]) == x + y by {
      assert [x, y][1..] == [y] && [y][1..] == [];
      assert Join([y]) == y + [] == y;
    }
  }

  // Any other character makes the text no number.
  lemma OtherTextIsNoNumber(s: string, i: nat)
    requires i < |s| && !IsDigit(s[i]) && s[i] != '_' && (i > 0 || (s[i] != '-' && s[i] != '+'))
    ensures IntValue(s).None?
  {
    if s[0] == '-' || s[0] == '+' {
      OtherCharacter(s[1..], i - 1);
    } else {
      OtherCharacter(s, i);
    }
  }

  lemma OtherCharacter(s: string, i: nat)
    requires i < |s| && !IsDigit(s[i]) && s[i] != '_'
    ensures NatValue(s).None?
  {
    var parts := Split(s, '_');
    SplitJoins(s, '_');
    assert s[i] in JoinOn(parts, '_');
    if forall k :: 0 <= k < |parts| ==> AllDigits(parts[k]) {
      JoinOnCharacters(parts, '_');
      assert false;
    }
  }

  lemma {:induction false} JoinOnCharacters(parts: seq<string>, sep: char)
    requires forall k :: 0 <= k < |parts| ==> AllDigits(parts[k])
    ensures forall c :: c in JoinOn(parts, sep) ==> c == sep || IsDigit(c)
  {
    if |parts| > 1 {
      JoinOnCharacters(parts[1..], sep);
    }
  }

  // A non-negative setting of the environment; blank or malformed text is the default.
  function EnvInt(text: Option<string>, default_: nat): nat {
    var t := if text.Some? then Strip(text.value) else "";
    if t == "" || IntValue(t).None? then default_
    else if IntValue(t).value < 0 then 0
    else IntValue(t).value
  }

  const DEFAULT_KILL_AFTER := 6

  // The number of failures in a row that kills; 0 switches the restart off.
  function KillAfter(setting: Option<string>): nat { EnvInt(setting, DEFAULT_KILL_AFTER) }

  // A negative setting switches the restart off; a negative or unreadable counter counts as zero.
  lemma NegativesAreZero(n: nat)
    ensures KillAfter(Some("-" + Decimal(n))) == 0
    ensures Failures(Text("-" + Decimal(n))) == 0 && Failures(Unreadable) == 0 && Failures(Missing) == 0
  {
    var s := "-" + Decimal(n);
    SignsAreRead(n);
    DecimalNotBlank(n);
    assert s[0] == '-' && s[|s| - 1] == Decimal(n)[|Decimal(n)| - 1];
    StripNoop(s);
  }

  // Without a setting, or with a blank or malformed one, six failures in a row kill.
  lemma SixByDefault(text: string)
    ensures KillAfter(None) == 6
    ensures Strip(text) == "" || IntValue(Strip(text)).None? ==> KillAfter(Some(text)) == 6
  {}

  lemma SettingIsRead(n: nat)
    ensures KillAfter(Some(Decimal(n))) == n
  {
    DecimalNotBlank(n);
    StripNoop(Decimal(n));
    DecimalIsRead(n);
  }

  // ----- The state file

  datatype StateFile = Missing | Unreadable | Text(text: string)

  predicate Ascii(s: string) { forall i :: 0 <= i < |s| ==> s[i] as int < 128 }

  // What the next probe reads: anything but a positive number counts as zero.
  function Failures(f: StateFile): nat {
    if !f.Text? || !Ascii(f.text) then 0
    else
      var n := IntValue(Strip(f.text));
      if n.Some? && n.value > 0 then n.value else 0
  }

  lemma CounterRoundTrip(n: nat)
    ensures Failures(Text(Decimal(n))) == n
  {
    DecimalNotBlank(n);
    StripNoop(Decimal(n));
    DecimalIsRead(n);
  }

  lemma EmptyReadsZero()
    ensures Failures(Text("")) == 0
  {}

  // How an attempt to write the file ends: the open refused, or the write refused once the file is emptied.
  datatype WriteFault = NoFault | OpenRefused | WriteRefused

  function FileAfterWrite(f: StateFile, n: nat, fault: WriteFault): StateFile {
    match fault
    case NoFault => Text(Decimal(n))
    case OpenRefused => f
    case WriteRefused => Text("")
  }

  // ----- One probe

  // Where the runtime's timeout kills the probe; a point that is not reached does not matter. In a restart
  // it may come after any number of signals, the grace period between dumps and kills included.
  datatype Stop = Finishes | BeforeWrite | InWrite | InProbe | InReset | InRestart(sent: nat)

  datatype Run = Run(stop: Stop, write: WriteFault, healthy: bool, reset: WriteFault)

  datatype Outcome = Killed | Healthy | Untracked | Unhealthy | GaveUp(repeated: bool)

  // The probe lives until it knows the answer of the server.
  predicate Answered(run: Run) { run.stop.Finishes? || run.stop.InReset? || run.stop.InRestart? }

  function NextFile(f: StateFile, run: Run): StateFile {
    var counted := FileAfterWrite(f, Failures(f) + 1, run.write);
    if run.stop.BeforeWrite? then f
    else if run.stop.InWrite? then Text("")
    else if !Answered(run) || !run.healthy then counted
    else if run.stop.InReset? then Text("")
    else FileAfterWrite(counted, 0, run.reset)
  }

  // GaveUp is the decision to restart; with a stop in the restart it is not carried out to the end.
  function OutcomeOf(f: StateFile, killAfter: nat, run: Run): Outcome {
    var n := Failures(f) + 1;
    if !Answered(run) then Killed
    else if run.healthy then (if run.stop.InReset? then Killed else Healthy)
    else if run.write != NoFault then Untracked
    else if killAfter != 0 && n >= killAfter then GaveUp(n > killAfter)
    else Unhealthy
  }

  // What the runtime sees of a probe that was not killed.
  function ExitCode(outcome: Outcome): Option<nat> {
    if outcome.Killed? then None else if outcome.Healthy? then Some(0) else Some(1)
  }

  // The restart is switched off exactly by a number that is not positive; an unset, blank or malformed
  // setting leaves it on.
  lemma DisabledExactly(setting: Option<string>)
    ensures (forall f, run :: !OutcomeOf(f, KillAfter(setting), run).GaveUp?)
       <==> setting.Some? && IntValue(Strip(setting.value)).Some? && IntValue(Strip(setting.value)).value <= 0
  {
    var k := KillAfter(setting);
    if k > 0 {
      var run := Run(Finishes, NoFault, false, NoFault);
      CounterRoundTrip(k);
      assert OutcomeOf(Text(Decimal(k)), k, run).GaveUp?;
    }
    assert IntValue("").None?;
  }

  // ----- Processes

  // A numbered or other entry of /proc; None is a file that cannot be read.
  datatype ProcEntry = ProcEntry(name: string, stat: Option<string>, cmdline: Option<string>)

  const MARKER := "uvicorn"

  // The part after the last `)`, or the whole text: `s.rsplit(")", 1)[-1]`.
  function AfterLastParen(s: string): (r: string)
    ensures |r| <= |s| && r == s[|s| - |r|..] && ')' !in r
  {
    if s == "" || s[|s| - 1] == ')' then "" else AfterLastParen(s[..|s| - 1]) + [s[|s| - 1]]
  }

  function Word(s: string): (w: string)
    ensures w <= s
    ensures s != "" && !IsSpace(s[0]) ==> w != ""
  {
    if s == "" || IsSpace(s[0]) then "" else [s[0]] + Word(s[1..])
  }

  // `s.split()`.
  function Words(s: string): seq<string>
    decreases |s|
  {
    if s == "" then []
    else if IsSpace(s[0]) then Words(s[1..])
    else
      var w := Word(s);
      [w] + Words(s[|w|..])
  }

  function ParentPid(stat: string): Option<int> {
    var fields := Words(AfterLastParen(stat));
    if |fields| < 2 then None else IntValue(fields[1])
  }

  // The kernel's line: pid, bracketed name, state letter, parent, further numeric fields.
  function StatLine(pid: nat, comm: string, state: char, ppid: nat, more: string): string {
    Decimal(pid) + " (" + comm + ") " + [state] + " " + Decimal(ppid) + more
  }

  lemma AfterLastParenSnoc(s: string, c: char)
    ensures AfterLastParen(s + [c]) == if c == ')' then "" else AfterLastParen(s) + [c]
  {
    assert (s + [c])[..|s|] == s;
  }

  lemma {:induction false} AfterLastParenAppend(s: string, tail: string)
    requires forall i :: 0 <= i < |tail| ==> tail[i] != ')'
    ensures AfterLastParen(s + tail) == AfterLastParen(s) + tail
  {
    if tail == "" {
      assert s + tail == s;
    } else {
      var front, last := tail[..|tail| - 1], tail[|tail| - 1];
      assert tail == front + [last];
      AfterLastParenAppend(s, front);
      AfterLastParenSnoc(s + front, last);
      JoinAssociates(s, front, [last]);
      JoinAssociates(AfterLastParen(s), front, [last]);
    }
  }

  lemma AfterLastParenIs(s: string, tail: string)
    requires ')' !in tail
    ensures AfterLastParen(s + [')'] + tail) == tail
  {
    AfterLastParenSnoc(s, ')');
    AfterLastParenAppend(s + [')'], tail);
  }

  lemma {:induction false} WordIs(w: string, more: string)
    requires forall i :: 0 <= i < |w| ==> !IsSpace(w[i])
    requires more == "" || IsSpace(more[0])
    ensures Word(w + more) == w
  {
    if w == "" {
      assert w + more == more;
    } else {
      WordIs(w[1..], more);
      assert (w + more)[1..] == w[1..] + more;
    }
  }

  lemma WordsCons(w: string, more: string)
    requires w != "" && forall i :: 0 <= i < |w| ==> !IsSpace(w[i])
    requires more == "" || IsSpace(more[0])
    ensures Words(w + more) == [w] + Words(more)
  {
    WordIs(w, more);
    assert (w + more)[0] == w[0];
    assert (w + more)[|w|..] == more;
  }

  lemma SkipBlank(more: string)
    ensures Words([' '] + more) == Words(more)
  {
    assert ([' '] + more)[1..] == more;
  }

  // The fields after the name: the state letter, then the parent.
  lemma StateField(state: char, tail: string)
    requires !IsSpace(state)
    requires tail != "" && tail[0] == ' '
    ensures Words([' '] + ([state] + tail)) == [[state]] + Words(tail)
  {
    SkipBlank([state] + tail);
    WordsCons([state], tail);
  }

  lemma ParentField(parent: string, more: string)
    requires parent != "" && forall i :: 0 <= i < |parent| ==> !IsSpace(parent[i])
    requires more == "" || IsSpace(more[0])
    ensures Words([' '] + (parent + more)) == [parent] + Words(more)
  {
    SkipBlank(parent + more);
    WordsCons(parent, more);
  }

  lemma ParentAfterBracket(head: string, state: char, parent: string, more: string)
    requires !IsSpace(state) && state != ')' && ')' !in parent && ')' !in more
    requires parent != "" && forall i :: 0 <= i < |parent| ==> !IsSpace(parent[i])
    requires more == "" || IsSpace(more[0])
    ensures ParentPid(head + [')'] + ([' '] + ([state] + ([' '] + (parent + more))))) == IntValue(parent)
  {
    var tail := [' '] + (parent + more);
    AfterLastParenIs(head, [' '] + ([state] + tail));
    StateField(state, tail);
    ParentField(parent, more);
  }

  lemma StatLineShape(pid: nat, comm: string, state: char, ppid: nat, more: string)
    ensures StatLine(pid, comm, state, ppid, more)
         == (Decimal(pid) + " (" + comm) + [')'] + ([' '] + ([state] + ([' '] + (Decimal(ppid) + more))))
  {
    var start := Decimal(pid) + " (" + comm;
    var end := Decimal(ppid) + more;
    assert ") " == [')'] + [' '];
    assert start + ") " + [state] + " " + end == start + [')'] + ([' '] + ([state] + ([' '] + end)));
  }

  // Main result: whatever the process is called, brackets and blanks included, its parent is recovered.
  lemma ParentPidForAnyName(pid: nat, comm: string, state: char, ppid: nat, more: string)
    requires !IsSpace(state) && state != ')'
    requires ')' !in more && (more == "" || IsSpace(more[0]))
    ensures ParentPid(StatLine(pid, comm, state, ppid, more)) == Some(ppid)
  {
    DecimalNotBlank(ppid);
    StatLineShape(pid, comm, state, ppid, more);
    ParentAfterBracket(Decimal(pid) + " (" + comm, state, Decimal(ppid), more);
    DecimalIsRead(ppid);
  }

  predicate Occurs(needle: string, text: string) {
    needle <= text || (text != "" && Occurs(needle, text[1..]))
  }

  // A readable numbered entry, other than PID 1 and the probe itself, that PID 1 started and that runs the server.
  predicate IsTarget(e: ProcEntry, own: nat) {
    && e.name != "" && AllDigits(e.name) && DecimalValue(e.name) != 1 && DecimalValue(e.name) != own
    && e.stat.Some? && e.cmdline.Some?
    && ParentPid(e.stat.value) == Some(1) && Occurs(MARKER, e.cmdline.value)
  }

  // The needle occurs exactly when the text is something, the needle, and something.
  lemma {:induction false} OccursSplits(needle: string, text: string)
    ensures Occurs(needle, text) <==> exists a, b :: text == a + needle + b
  {
    if Occurs(needle, text) {
      OccursFound(needle, text);
    }
    if a, b :| text == a + needle + b {
      OccursAfter(needle, a, b);
    }
  }

  lemma {:induction false} OccursFound(needle: string, text: string)
    requires Occurs(needle, text)
    ensures exists a, b :: text == a + needle + b
  {
    if needle <= text {
      assert text == [] + needle + text[|needle|..];
    } else {
      OccursFound(needle, text[1..]);
      var a, b :| text[1..] == a + needle + b;
      assert text == [text[0]] + text[1..];
      JoinAssociates([text[0]], a + needle, b);
      JoinAssociates([text[0]], a, needle);
      assert text == ([text[0]] + a) + needle + b;
    }
  }

  lemma {:induction false} OccursAfter(needle: string, a: string, b: string)
    ensures Occurs(needle, a + needle + b)
  {
    if a == [] {
      assert a + needle + b == needle + b;
    } else {
      OccursAfter(needle, a[1..], b);
      assert (a + needle + b)[1..] == a[1..] + needle + b;
    }
  }

  // The entry of a running process is a target exactly when the process is neither PID 1 nor the probe, PID 1 is
  // its parent, whatever its name, and its command line mentions the server.
  lemma TargetIsChildOfInit(pid: nat, comm: string, state: char, ppid: nat, more: string, cmdline: string, own: nat)
    requires !IsSpace(state) && state != ')'
    requires ')' !in more && (more == "" || IsSpace(more[0]))
    ensures var e := ProcEntry(Decimal(pid), Some(StatLine(pid, comm, state, ppid, more)), Some(cmdline));
      IsTarget(e, own) <==> pid != 1 && pid != own && ppid == 1 && exists a, b :: cmdline == a + "uvicorn" + b
  {
    DecimalRoundTrip(pid);
    ParentPidForAnyName(pid, comm, state, ppid, more);
    OccursSplits("uvicorn", cmdline);
  }

  // An entry that is not a number, or one of whose files cannot be read, is never a target.
  lemma UnreadableIsNoTarget(e: ProcEntry, own: nat)
    requires !AllDigits(e.name) || e.name == "" || e.stat.None? || e.cmdline.None?
    ensures !IsTarget(e, own)
  {}

  function TargetPids(entries: seq<ProcEntry>, own: nat): seq<nat> {
    if entries == [] then []
    else
      var e := entries[|entries| - 1];
      TargetPids(entries[..|entries| - 1], own) + if IsTarget(e, own) then [DecimalValue(e.name)] else []
  }

  lemma {:induction false} TargetsAreChosen(entries: seq<ProcEntry>, own: nat, pid: nat)
    ensures pid in TargetPids(entries, own)
            <==> exists e :: e in entries && IsTarget(e, own) && DecimalValue(e.name) == pid
  {
    if entries != [] {
      var last := entries[|entries| - 1];
      TargetsAreChosen(entries[..|entries| - 1], own, pid);
      assert entries == entries[..|entries| - 1] + [last];
    }
  }

  function Insert(p: nat, sorted: seq<nat>): seq<nat> {
    if sorted == [] || p <= sorted[0] then [p] + sorted else [sorted[0]] + Insert(p, sorted[1..])
  }

  function Sorted(s: seq<nat>): seq<nat> {
    if s == [] then [] else Insert(s[0], Sorted(s[1..]))
  }

  predicate Ascending(s: seq<nat>) { forall i, j :: 0 <= i < j < |s| ==> s[i] <= s[j] }

  lemma {:induction false} InsertAdds(p: nat, sorted: seq<nat>)
    ensures multiset(Insert(p, sorted)) == multiset(sorted) + multiset{p}
  {
    if sorted != [] && p > sorted[0] {
      InsertAdds(p, sorted[1..]);
      assert sorted == [sorted[0]] + sorted[1..];
    }
  }

  lemma {:induction false} InsertKeeps(p: nat, sorted: seq<nat>)
    requires Ascending(sorted)
    ensures Ascending(Insert(p, sorted))
  {
    if sorted != [] && p > sorted[0] {
      InsertKeeps(p, sorted[1..]);
      var rest := Insert(p, sorted[1..]);
      InsertAdds(p, sorted[1..]);
      forall i | 0 <= i < |rest| ensures sorted[0] <= rest[i] {
        assert rest[i] in multiset(rest);
      }
    }
  }

  lemma {:induction false} SortedKeeps(s: seq<nat>)
    ensures Ascending(Sorted(s)) && multiset(Sorted(s)) == multiset(s)
  {
    if s != [] {
      SortedKeeps(s[1..]);
      InsertKeeps(s[0], Sorted(s[1..]));
      InsertAdds(s[0], Sorted(s[1..]));
      assert s == [s[0]] + s[1..];
    }
  }

  // Lists the targets in ascending order, each exactly as often as it is listed.
  method FindTargetPids(entries: seq<ProcEntry>, own: nat) returns (pids: seq<nat>)
    ensures Ascending(pids) && multiset(pids) == multiset(TargetPids(entries, own))
    ensures pids == Sorted(TargetPids(entries, own))
    ensures forall p :: p in pids <==> exists e :: e in entries && IsTarget(e, own) && DecimalValue(e.name) == p
    ensures 1 !in pids && own !in pids
  {
    pids := [];
    for i := 0 to |entries|
      invariant pids == TargetPids(entries[..i], own)
    {
      assert entries[..i + 1][..i] == entries[..i];
      if IsTarget(entries[i], own) {
        pids := pids + [DecimalValue(entries[i].name)];
      }
    }
    assert entries[..|entries|] == entries;
    ghost var found := pids;
    SortedKeeps(pids);
    pids := Sorted(pids);
    forall p ensures p in pids <==> exists e :: e in entries && IsTarget(e, own) && DecimalValue(e.name) == p {
      TargetsAreChosen(entries, own, p);
      assert p in pids <==> p in multiset(pids);
      assert p in found <==> p in multiset(found);
    }
  }

  // ----- The container as the probe sees it

  datatype Signal = DumpStacks(pid: nat) | Kill(pid: nat)

  function Dumps(pids: seq<nat>): seq<Signal> {
    if pids == [] then [] else Dumps(pids[..|pids| - 1]) + [DumpStacks(pids[|pids| - 1])]
  }

  function Kills(pids: seq<nat>): seq<Signal> {
    if pids == [] then [] else Kills(pids[..|pids| - 1]) + [Kill(pids[|pids| - 1])]
  }

  lemma DumpsSnoc(pids: seq<nat>, i: nat)
    requires i < |pids|
    ensures Dumps(pids[..i + 1]) == Dumps(pids[..i]) + [DumpStacks(pids[i])]
  {
    assert pids[..i + 1][..i] == pids[..i];
  }

  lemma KillsSnoc(pids: seq<nat>, i: nat)
    requires i < |pids|
    ensures Kills(pids[..i + 1]) == Kills(pids[..i]) + [Kill(pids[i])]
  {
    assert pids[..i + 1][..i] == pids[..i];
  }

  // The first n elements, or all of them.
  function Prefix<T>(s: seq<T>, n: nat): seq<T> { if n < |s| then s[..n] else s }

  lemma {:induction false} DumpsOfPrefix(pids: seq<nat>, n: nat)
    ensures |Dumps(pids)| == |pids| && Prefix(Dumps(pids), n) == Dumps(Prefix(pids, n))
  {
    if pids != [] {
      var front := pids[..|pids| - 1];
      DumpsOfPrefix(front, n);
      assert n <= |front| ==> Prefix(pids, n) == Prefix(front, n) && Prefix(Dumps(pids), n) == Prefix(Dumps(front), n);
    }
  }

  lemma {:induction false} KillsOfPrefix(pids: seq<nat>, n: nat)
    ensures |Kills(pids)| == |pids| && Prefix(Kills(pids), n) == Kills(Prefix(pids, n))
  {
    if pids != [] {
      var front := pids[..|pids| - 1];
      KillsOfPrefix(front, n);
      assert n <= |front| ==> Prefix(pids, n) == Prefix(front, n) && Prefix(Kills(pids), n) == Prefix(Kills(front), n);
    }
  }

  lemma {:induction false} KillIsKilled(pids: seq<nat>, p: nat)
    ensures Kill(p) in Kills(pids) <==> p in pids
    ensures Kill(p) !in Dumps(pids)
  {
    if pids != [] {
      var front, last := pids[..|pids| - 1], pids[|pids| - 1];
      KillIsKilled(front, p);
      assert pids == front + [last];
    }
  }

  // Every target is asked for its stacks before any of them is killed. A probe that is itself killed has
  // sent a prefix of these signals.
  function SignalsSent(pids: seq<nat>, stop: Stop): seq<Signal> { Prefix(Dumps(pids) + Kills(pids), Allowed(stop, |pids|)) }

  // How many of the signals to n targets a stop allows.
  function Allowed(stop: Stop, n: nat): nat { if stop.InRestart? then stop.sent else 2 * n }

  lemma SignalsOfPrefix(pids: seq<nat>, sent: nat)
    ensures |Dumps(pids) + Kills(pids)| == 2 * |pids|
    ensures Prefix(Dumps(pids) + Kills(pids), sent)
         == Dumps(Prefix(pids, sent)) + if sent > |pids| then Kills(Prefix(pids, sent - |pids|)) else []
  {
    DumpsOfPrefix(pids, sent);
    KillsOfPrefix(pids, 0);
    if sent > |pids| {
      KillsOfPrefix(pids, sent - |pids|);
    }
  }

  lemma KillSentInPrefix(pids: seq<nat>, sent: nat, p: nat)
    ensures Kill(p) in Prefix(Dumps(pids) + Kills(pids), sent) <==> sent > |pids| && p in Prefix(pids, sent - |pids|)
  {
    SignalsOfPrefix(pids, sent);
    KillIsKilled(Prefix(pids, sent), p);
    if sent > |pids| {
      KillIsKilled(Prefix(pids, sent - |pids|), p);
    }
  }

  class Container {
    var state: StateFile
    // Every signal attempted, in order.
    var signals: seq<Signal>

    constructor ()
      ensures state == Missing && signals == []
    {
      state, signals := Missing, [];
    }

    method ReadFailures() returns (n: nat)
      ensures n == Failures(state)
    {
      return Failures(state);
    }

    method WriteFailures(n: nat, fault: WriteFault) returns (ok: bool)
      modifies this`state
      ensures ok <==> fault == NoFault
      ensures state == FileAfterWrite(old(state), n, fault)
    {
      if fault == OpenRefused {
        return false;
      }
      state := Text("");
      if fault == WriteRefused {
        return false;
      }
      state := Text(Decimal(n));
      return true;
    }

    method DumpStacksOf(pids: seq<nat>)
      modifies this`signals
      ensures signals == old(signals) + Dumps(pids)
    {
      for i := 0 to |pids|
        invariant signals == old(signals) + Dumps(pids[..i])
      {
        DumpsSnoc(pids, i);
        signals := signals + [DumpStacks(pids[i])];
      }
      assert pids[..|pids|] == pids;
    }

    method KillAll(pids: seq<nat>, immune: set<nat>) returns (killed: seq<nat>)
      modifies this`signals
      ensures signals == old(signals) + Kills(pids)
      ensures forall p :: p in killed <==> p in pids && p !in immune
    {
      killed := [];
      for i := 0 to |pids|
        invariant signals == old(signals) + Kills(pids[..i])
        invariant forall p :: p in killed <==> p in pids[..i] && p !in immune
      {
        KillsSnoc(pids, i);
        assert pids[..i + 1] == pids[..i] + [pids[i]];
        signals := signals + [Kill(pids[i])];
        if pids[i] !in immune {
          killed := killed + [pids[i]];
        }
      }
      assert pids[..|pids|] == pids;
    }

    // Asks every target for its stacks, then kills every target, as far as it gets; `immune` are those the
    // kernel refuses to kill.
    method SignalAll(pids: seq<nat>, immune: set<nat>, stop: Stop) returns (killed: seq<nat>)
      modifies this`signals
      ensures signals == old(signals) + SignalsSent(pids, stop)
      ensures forall p :: p in killed <==> Kill(p) in SignalsSent(pids, stop) && p !in immune
    {
      var sent := Allowed(stop, |pids|);
      SignalsOfPrefix(pids, sent);
      DumpStacksOf(Prefix(pids, sent));
      killed := [];
      if sent > |pids| {
        killed := KillAll(Prefix(pids, sent - |pids|), immune);
      }
      forall p
        ensures p in killed <==> Kill(p) in SignalsSent(pids, stop) && p !in immune
      {
        KillSentInPrefix(pids, sent, p);
      }
    }

    method RestartFrozenApp(entries: seq<ProcEntry>, own: nat, immune: set<nat>, stop: Stop) returns (killed: seq<nat>)
      modifies this`signals
      ensures signals == old(signals) + SignalsSent(Sorted(TargetPids(entries, own)), stop)
      ensures forall p :: p in killed <==> Kill(p) in SignalsSent(Sorted(TargetPids(entries, own)), stop) && p !in immune
    {
      var pids := FindTargetPids(entries, own);
      killed := SignalAll(pids, immune, stop);
    }

    // One run of the probe.
    method CheckHealth(setting: Option<string>, run: Run, entries: seq<ProcEntry>, own: nat, immune: set<nat>)
      returns (outcome: Outcome, exit: Option<nat>)
      modifies this
      ensures exit == ExitCode(outcome)
      ensures state == NextFile(old(state), run)
      ensures outcome == OutcomeOf(old(state), KillAfter(setting), run)
      ensures signals == old(signals) + if outcome.GaveUp? then SignalsSent(Sorted(TargetPids(entries, own)), run.stop) else []
    {
      var killAfter := KillAfter(setting);
      var read := ReadFailures();
      var failures := read + 1;
      if run.stop == BeforeWrite {
        return Killed, None;
      }
      if run.stop == InWrite {
        state := Text("");
        return Killed, None;
      }
      var tracked := WriteFailures(failures, run.write);
      if run.stop == InProbe {
        return Killed, None;
      }
      if run.healthy {
        if run.stop == InReset {
          state := Text("");
          return Killed, None;
        }
        var _ := WriteFailures(0, run.reset);
        return Healthy, Some(0);
      }
      if !tracked {
        return Untracked, Some(1);
      }
      if killAfter != 0 && failures >= killAfter {
        var _ := RestartFrozenApp(entries, own, immune, run.stop);
        return GaveUp(failures > killAfter), Some(1);
      }
      return Unhealthy, Some(1);
    }
  }

  // ----- Whole lives of a container

  datatype Event = Restarted | Probed(run: Run)

  // The server answered and the probe lived to record it.
  predicate Succeeds(run: Run) { run.healthy && Answered(run) }

  predicate Fails(e: Event) { e.Probed? && !Succeeds(e.run) }

  // The state file at the end of a history; a restart empties the private file system.
  function FileAfter(h: seq<Event>): StateFile {
    if h == [] then Missing
    else
      var e := h[|h| - 1];
      if e.Restarted? then Missing else NextFile(FileAfter(h[..|h| - 1]), e.run)
  }

  // Probes without success since the last success or restart.
  function Streak(h: seq<Event>): nat {
    if h == [] || !Fails(h[|h| - 1]) then 0 else Streak(h[..|h| - 1]) + 1
  }

  lemma {:induction false} StreakIsInARow(h: seq<Event>, k: nat)
    ensures Streak(h) >= k <==> InARow(h, k)
  {
    if k > 0 && h != [] {
      StreakIsInARow(h[..|h| - 1], k - 1);
      assert forall i :: 0 <= i < |h| - 1 ==> h[..|h| - 1][i] == h[i];
    }
  }

  // The run's own write of the counter reached the file.
  predicate Counted(run: Run) { !run.stop.BeforeWrite? && !run.stop.InWrite? && run.write == NoFault }

  // The run leaves a file that reads zero: it is killed inside a write, a write is refused once the file is
  // emptied, or the reset of a success is not refused at the open.
  predicate Empties(run: Run) {
    || run.stop.InWrite?
    || (!run.stop.BeforeWrite? && run.write == WriteRefused)
    || (Succeeds(run) && (run.stop.InReset? || run.reset != OpenRefused))
  }

  // The counter writes that reached the file since it last read zero.
  function SinceEmptied(h: seq<Event>): nat {
    if h == [] || h[|h| - 1].Restarted? || Empties(h[|h| - 1].run) then 0
    else SinceEmptied(h[..|h| - 1]) + if Counted(h[|h| - 1].run) then 1 else 0
  }

  // Those writes one by one: counted, and nothing emptied the file from then on.
  ghost predicate Live(h: seq<Event>, i: nat)
    requires i < |h|
  {
    h[i].Probed? && Counted(h[i].run) && forall j :: i <= j < |h| ==> h[j].Probed? && !Empties(h[j].run)
  }

  ghost function LiveWrites(h: seq<Event>): set<nat> { set i: nat | i < |h| && Live(h, i) }

  lemma LiveBefore(h: seq<Event>, i: nat)
    requires i + 1 < |h|
    ensures var last := h[|h| - 1];
      Live(h, i) <==> Live(h[..|h| - 1], i) && last.Probed? && !Empties(last.run)
  {
    var front := h[..|h| - 1];
    assert forall j :: 0 <= j < |front| ==> front[j] == h[j];
    if Live(front, i) && h[|h| - 1].Probed? && !Empties(h[|h| - 1].run) {
      forall j | i <= j < |h| ensures h[j].Probed? && !Empties(h[j].run) {
        assert j < |front| ==> h[j] == front[j];
      }
    }
  }

  lemma {:induction false} SinceEmptiedCounts(h: seq<Event>)
    ensures SinceEmptied(h) == |LiveWrites(h)|
  {
    if h != [] {
      var n, last := |h| - 1, h[|h| - 1];
      SinceEmptiedCounts(h[..n]);
      forall i: nat | i < n ensures Live(h, i) <==> Live(h[..n], i) && last.Probed? && !Empties(last.run) {
        LiveBefore(h, i);
      }
      var own := if Live(h, n) then {n} else {};
      if last.Restarted? || Empties(last.run) {
        assert LiveWrites(h) == {};
      } else {
        assert LiveWrites(h) == LiveWrites(h[..n]) + own;
      }
    }
  }

  lemma CountAfterWrite(f: StateFile, n: nat, fault: WriteFault)
    ensures Failures(FileAfterWrite(f, n, fault))
         == match fault { case NoFault => n case OpenRefused => Failures(f) case WriteRefused => 0 }
  {
    CounterRoundTrip(n);
    EmptyReadsZero();
  }

  lemma NextCount(f: StateFile, run: Run)
    ensures Failures(NextFile(f, run))
         == if Empties(run) then 0 else Failures(f) + if Counted(run) then 1 else 0
  {
    var n := Failures(f) + 1;
    EmptyReadsZero();
    CountAfterWrite(f, n, run.write);
    CountAfterWrite(FileAfterWrite(f, n, run.write), 0, run.reset);
  }

  // Main result: over every history the counter is the number of counter writes that are still in the file.
  lemma {:induction false} CounterIsSinceEmptied(h: seq<Event>)
    ensures Failures(FileAfter(h)) == SinceEmptied(h)
  {
    if h != [] {
      var e := h[|h| - 1];
      CounterIsSinceEmptied(h[..|h| - 1]);
      if e.Probed? {
        NextCount(FileAfter(h[..|h| - 1]), e.run);
      }
    }
  }

  // What the file still counted when the current streak began.
  function Leftover(h: seq<Event>): nat {
    if h != [] && Fails(h[|h| - 1]) then Leftover(h[..|h| - 1]) else SinceEmptied(h)
  }

  // Every probe of the current streak was counted.
  predicate StreakCounted(h: seq<Event>) {
    h != [] && Fails(h[|h| - 1]) ==> Counted(h[|h| - 1].run) && StreakCounted(h[..|h| - 1])
  }

  // Main result: a streak all counted shows in the counter on top of what was left before it, any other streak in
  // less. So after a streak that began at zero the counter is at most the streak, and is the streak exactly
  // when no probe of it was killed before or inside its write or had that write refused.
  lemma {:induction false} CounterFollowsStreak(h: seq<Event>)
    ensures Failures(FileAfter(h)) <= Leftover(h) + Streak(h)
    ensures Failures(FileAfter(h)) == Leftover(h) + Streak(h) <==> StreakCounted(h)
  {
    CounterIsSinceEmptied(h);
    if h != [] && Fails(h[|h| - 1]) {
      CounterFollowsStreak(h[..|h| - 1]);
      CounterIsSinceEmptied(h[..|h| - 1]);
    }
  }

  // A streak begins at zero after a restart, after a success whose reset reached the file, and at the start of all.
  lemma {:induction false} LeftoverIsRefusedReset(h: seq<Event>)
    requires h != [] && !Fails(h[|h| - 1]) && Leftover(h) > 0
    ensures h[|h| - 1].Probed? && h[|h| - 1].run.reset == OpenRefused
  {}

  // With no reset refused at the open, every streak begins at zero: the counter is then the streak exactly when
  // every probe of it was counted.
  lemma {:induction false} ResetsKeepCounterExact(h: seq<Event>)
    requires forall i :: 0 <= i < |h| && h[i].Probed? ==> h[i].run.reset != OpenRefused
    ensures Leftover(h) == 0
    ensures Failures(FileAfter(h)) == Streak(h) <==> StreakCounted(h)
  {
    CounterFollowsStreak(h);
    if h != [] {
      if Fails(h[|h| - 1]) {
        ResetsKeepCounterExact(h[..|h| - 1]);
      } else if Leftover(h) > 0 {
        LeftoverIsRefusedReset(h);
      }
    }
  }

  // The probe after the history gives up exactly when it fails to the end, is counted, and the writes in the
  // file, its own included, reach the limit; the first time is told from the repeats.
  lemma GivesUpExactly(h: seq<Event>, killAfter: nat, run: Run)
    ensures var all := h + [Probed(run)];
      var outcome := OutcomeOf(FileAfter(h), killAfter, run);
      var failsCounted := Answered(run) && !run.healthy && run.write == NoFault;
      && (outcome.GaveUp? <==> killAfter > 0 && failsCounted && SinceEmptied(all) >= killAfter)
      && (outcome == GaveUp(false) <==> killAfter > 0 && failsCounted && SinceEmptied(all) == killAfter)
  {
    CounterIsSinceEmptied(h);
    assert (h + [Probed(run)])[..|h|] == h;
  }

  // Main result: over every history, which probe ends how, told from its run and the writes still in the file.
  lemma OutcomesExactly(h: seq<Event>, killAfter: nat, run: Run)
    ensures var outcome := OutcomeOf(FileAfter(h), killAfter, run);
      var finishes := run.stop.Finishes? || run.stop.InRestart? || (run.stop.InReset? && !run.healthy);
      var limited := killAfter > 0 && SinceEmptied(h + [Probed(run)]) >= killAfter;
      && (outcome == Killed <==> !finishes)
      && (outcome == Healthy <==> finishes && run.healthy)
      && (outcome == Untracked <==> finishes && !run.healthy && run.write != NoFault)
      && (outcome == Unhealthy <==> finishes && !run.healthy && run.write == NoFault && !limited)
      && (outcome.GaveUp? <==> finishes && !run.healthy && run.write == NoFault && limited)
      && (ExitCode(outcome) == Some(0) <==> finishes && run.healthy)
      && (ExitCode(outcome) == Some(1) <==> finishes && !run.healthy)
  {
    GivesUpExactly(h, killAfter, run);
  }

  predicate InARow(h: seq<Event>, k: nat) { k <= |h| && forall i :: |h| - k <= i < |h| ==> Fails(h[i]) }

  // Whatever the limit and the next probe, giving up means that many probes in a row without success.
  ghost predicate GivesUpSafely(h: seq<Event>) {
    forall killAfter, run | OutcomeOf(FileAfter(h), killAfter, run).GaveUp? :: InARow(h + [Probed(run)], killAfter)
  }

  // Main result: that is so exactly when the file counts no more than the streak, and never less than so
  // after a streak that began at zero.
  lemma GivesUpOnlyAfterStreak(h: seq<Event>)
    ensures GivesUpSafely(h) <==> SinceEmptied(h) <= Streak(h)
    ensures Leftover(h) == 0 ==> GivesUpSafely(h)
  {
    CounterIsSinceEmptied(h);
    CounterFollowsStreak(h);
    if SinceEmptied(h) <= Streak(h) {
      forall killAfter, run | OutcomeOf(FileAfter(h), killAfter, run).GaveUp?
        ensures InARow(h + [Probed(run)], killAfter)
      {
        ProbeLast(h, run);
        StreakIsInARow(h + [Probed(run)], killAfter);
      }
    } else {
      var failing := Run(Finishes, NoFault, false, NoFault);
      var k := SinceEmptied(h) + 1;
      assert OutcomeOf(FileAfter(h), k, failing).GaveUp?;
      ProbeLast(h, failing);
      StreakIsInARow(h + [Probed(failing)], k);
    }
  }

  // After one failure and a success whose reset is refused at the open, one more failure gives up with a limit of two.
  lemma RefusedResetGivesUpEarly()
    ensures var failing := Run(Finishes, NoFault, false, NoFault);
      var h := [Probed(failing), Probed(Run(Finishes, OpenRefused, true, OpenRefused))];
      OutcomeOf(FileAfter(h), 2, failing).GaveUp? && !InARow(h + [Probed(failing)], 2)
  {
    var failing := Run(Finishes, NoFault, false, NoFault);
    var fruitless := Run(Finishes, OpenRefused, true, OpenRefused);
    var first := [Probed(failing)];
    ProbeLast([], failing);
    ProbeLast(first, fruitless);
    ProbeLast(first + [Probed(fruitless)], failing);
    StreakIsInARow(first + [Probed(fruitless)] + [Probed(failing)], 2);
    assert [] + first == first;
    assert [Probed(failing), Probed(fruitless)] == first + [Probed(fruitless)];
    CounterRoundTrip(1);
  }

  // A probe killed inside its write makes the file forget the whole streak; one killed before it is not counted.
  lemma KilledProbesAreForgotten()
    ensures var failing := Run(Finishes, NoFault, false, NoFault);
      var h := [Probed(failing), Probed(failing.(stop := InWrite))];
      Failures(FileAfter(h)) == 0 && Streak(h) == 2
    ensures var early := [Probed(Run(BeforeWrite, NoFault, false, NoFault))];
      Failures(FileAfter(early)) == 0 && Streak(early) == 1
  {
    var failing := Run(Finishes, NoFault, false, NoFault);
    var torn := failing.(stop := InWrite);
    var first := [Probed(failing)];
    ProbeLast([], failing);
    ProbeLast([], failing.(stop := BeforeWrite));
    ProbeLast(first, torn);
    assert [] + first == first && [] + [Probed(failing.(stop := BeforeWrite))] == [Probed(failing.(stop := BeforeWrite))];
    assert [Probed(failing), Probed(torn)] == first + [Probed(torn)];
    EmptyReadsZero();
  }

  lemma ProbeLast(h: seq<Event>, run: Run)
    ensures FileAfter(h + [Probed(run)]) == NextFile(FileAfter(h), run)
    ensures Streak(h + [Probed(run)]) == if Succeeds(run) then 0 else Streak(h) + 1
  {
    assert (h + [Probed(run)])[..|h|] == h;
  }
}
