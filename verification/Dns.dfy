/** Rewriting and restoring resolv.conf across failing operations and crashes. What each file
    operation meets is given in advance by a schedule over the operations in order. */
module Dns {
  import opened Prelude

  type Content = string

  const TITLE: string := "# Managed by soulvpn — do not edit"

  const BANNER: Content := TITLE + "\n"

  const DIRECTIVE: string := "nameserver "

  function Body(servers: seq<string>): Content {
    BANNER + Lines(servers)
  }

  function Lines(servers: seq<string>): Content {
    if servers == [] then "" else DIRECTIVE + servers[0] + "\n" + Lines(servers[1..])
  }

  // ---- what a reader of the file sees ----

  /** The lines of a file, the last one whether or not it is terminated. */
  function LinesOf(text: string, current: string): seq<string> {
    if text == "" then (if current == "" then [] else [current])
    else if text[0] == '\n' then [current] + LinesOf(text[1..], "")
    else LinesOf(text[1..], current + [text[0]])
  }

  /** The servers named by the lines that hold the directive. */
  function Nameservers(lines: seq<string>): seq<string> {
    if lines == [] then []
    else (if "nameserver " <= lines[0] then [lines[0][11..]] else []) + Nameservers(lines[1..])
  }

  lemma {:induction false} LineIsRead(line: string, rest: string, current: string)
    requires '\n' !in line
    ensures LinesOf(line + "\n" + rest, current) == [current + line] + LinesOf(rest, "")
  {
    var text := line + "\n" + rest;
    if line == "" {
      assert text[1..] == rest && current + line == current;
    } else {
      assert text[1..] == line[1..] + "\n" + rest;
      LineIsRead(line[1..], rest, current + [line[0]]);
      assert current + [line[0]] + line[1..] == current + line;
    }
  }

  lemma {:induction false} ServersAreRead(servers: seq<string>)
    requires forall s :: s in servers ==> '\n' !in s
    ensures var lines := LinesOf(Lines(servers), "");
            |lines| == |servers| && Nameservers(lines) == servers
  {
    if servers == [] {
    } else {
      ServersAreRead(servers[1..]);
      var line := DIRECTIVE + servers[0];
      assert Lines(servers) == line + "\n" + Lines(servers[1..]);
      LineIsRead(line, Lines(servers[1..]), "");
      assert "" + line == line && line[11..] == servers[0];
    }
  }

  /** The managed file is a title and one line for each configured server, and names exactly those
      servers, in order. */
  lemma BodyNamesServers(servers: seq<string>)
    requires forall s :: s in servers ==> '\n' !in s
    ensures var lines := LinesOf(Body(servers), "");
            |lines| == |servers| + 1 && lines[0] == "# Managed by soulvpn — do not edit" && Nameservers(lines) == servers
  {
    ServersAreRead(servers);
    assert Body(servers) == TITLE + "\n" + Lines(servers);
    LineIsRead(TITLE, Lines(servers), "");
    assert "" + TITLE == TITLE;
  }

  // ---- the files and what may go wrong ----

  /** An operation works, fails with an error, or the client crashes before it; after a crash
      nothing has an effect until the next life. Reads and writes are atomic. */
  datatype Fault = Works | Fails | Crashes

  type Schedule = nat -> Fault

  /** The two files, whether the client is running, and how many operations were tried. */
  datatype Files = Files(live: Option<Content>, backup: Option<Content>, up: bool, ops: nat)

  predicate Succeeds(f: Schedule, d: Files) {
    d.up && f(d.ops).Works?
  }

  /** One operation later. */
  function Tick(f: Schedule, d: Files): Files {
    d.(up := d.up && !f(d.ops).Crashes?, ops := d.ops + 1)
  }

  class Disk {
    const faults: Schedule
    var live: Option<Content>
    var backup: Option<Content>
    var up: bool
    var ops: nat

    function View(): Files
      reads this
    {
      Files(live, backup, up, ops)
    }

    constructor (live: Option<Content>, backup: Option<Content>, faults: Schedule)
      ensures View() == Files(live, backup, true, 0) && this.faults == faults
    {
      this.live, this.backup, this.faults, up, ops := live, backup, faults, true, 0;
    }

    method Attempt() returns (ok: bool)
      modifies this`up, this`ops
      ensures ok == Succeeds(faults, old(View())) && View() == Tick(faults, old(View()))
    {
      var fault := faults(ops);
      ok := up && fault.Works?;
      up, ops := up && !fault.Crashes?, ops + 1;
    }

    method Restart()
      modifies this`up
      ensures View() == old(View()).(up := true)
    {
      up := true;
    }

    method ReadLive() returns (r: Option<Content>)
      modifies this`up, this`ops
      ensures View() == Tick(faults, old(View()))
      ensures r == if Succeeds(faults, old(View())) then live else None
    {
      var ok := Attempt();
      r := if ok then live else None;
    }

    method ReadBackup() returns (r: Option<Content>)
      modifies this`up, this`ops
      ensures View() == Tick(faults, old(View()))
      ensures r == if Succeeds(faults, old(View())) then backup else None
    {
      var ok := Attempt();
      r := if ok then backup else None;
    }

    method WriteLive(c: Content) returns (ok: bool)
      modifies this`up, this`ops, this`live
      ensures ok == Succeeds(faults, old(View()))
      ensures View() == Tick(faults, old(View())).(live := if ok then Some(c) else old(live))
    {
      ok := Attempt();
      if ok {
        live := Some(c);
      }
    }

    method WriteBackup(c: Content) returns (ok: bool)
      modifies this`up, this`ops, this`backup
      ensures ok == Succeeds(faults, old(View()))
      ensures View() == Tick(faults, old(View())).(backup := if ok then Some(c) else old(backup))
    {
      ok := Attempt();
      if ok {
        backup := Some(c);
      }
    }

    method RemoveBackup()
      modifies this`up, this`ops, this`backup
      ensures View() == Tick(faults, old(View())).(backup := if Succeeds(faults, old(View())) then None else old(backup))
    {
      var ok := Attempt();
      if ok {
        backup := None;
      }
    }
  }

  // ---- the guard's operations as functions of the files ----

  function WriteBody(f: Schedule, d: Files, body: Content): (Files, bool) {
    (Tick(f, d).(live := if Succeeds(f, d) then Some(body) else d.live), Succeeds(f, d))
  }

  /** The live file is saved unless a backup survives from a crash, then overwritten. */
  function InstallStep(f: Schedule, d: Files, body: Content): (Files, bool) {
    if d.live.None? then WriteBody(f, d, body)
    else
      var d1 := Tick(f, d);
      if !Succeeds(f, d) then (d1, false)
      else if d.backup.Some? then WriteBody(f, d1, body)
      else if !Succeeds(f, d1) then (Tick(f, d1), false)
      else WriteBody(f, Tick(f, d1).(backup := d.live), body)
  }

  function RemoveStep(f: Schedule, d: Files): Files {
    Tick(f, d).(backup := if Succeeds(f, d) then None else d.backup)
  }

  /** The backup is copied back if it can be read, and removed in any case. */
  function RestoreStep(f: Schedule, d: Files): Files {
    if d.backup.None? then d
    else if !Succeeds(f, d) then RemoveStep(f, Tick(f, d))
    else
      var d1 := Tick(f, d);
      RemoveStep(f, Tick(f, d1).(live := if Succeeds(f, d1) then d.backup else d.live))
  }

  class DnsGuard {
    var restored: bool
    const disk: Disk

    constructor (disk: Disk)
      ensures this.disk == disk && !restored
    {
      this.disk := disk;
      restored := false;
    }

    method Restore()
      modifies this, disk
      ensures restored
      ensures disk.View() == if old(restored) then old(disk.View()) else RestoreStep(disk.faults, old(disk.View()))
    {
      if restored {
        return;
      }
      restored := true;
      if disk.backup.Some? {
        var content := disk.ReadBackup();
        if content.Some? {
          var ignored := disk.WriteLive(content.value);
        }
        disk.RemoveBackup();
      }
    }
  }

  method Install(disk: Disk, servers: seq<string>) returns (guard: Option<DnsGuard>)
    modifies disk
    ensures (disk.View(), guard.Some?) == InstallStep(disk.faults, old(disk.View()), Body(servers))
    ensures guard.Some? ==> fresh(guard.value) && guard.value.disk == disk && !guard.value.restored
  {
    if disk.live.Some? {
      var content := disk.ReadLive();
      if content.None? {
        return None;
      }
      if disk.backup.None? {
        var saved := disk.WriteBackup(content.value);
        if !saved {
          return None;
        }
      }
    }
    var written := disk.WriteLive(Body(servers));
    if !written {
      return None;
    }
    var g := new DnsGuard(disk);
    return Some(g);
  }

  // ---- what becomes of the original ----

  /** The original is the backup or, while there is none, the live file. */
  predicate Preserved(d: Files, original: Content) {
    d.backup == Some(original) || (d.backup == None && d.live == Some(original))
  }

  /** An installation keeps the original wherever it fails or crashes. */
  lemma InstallPreserves(f: Schedule, d: Files, body: Content, original: Content)
    requires Preserved(d, original)
    ensures var (d', ok) := InstallStep(f, d, body);
            && Preserved(d', original)
            && (ok ==> d'.live == Some(body) && d'.backup == Some(original))
  {
    assert d.backup == None ==> d.live.Some?;
  }

  /** Nothing goes wrong in the next `n` operations. */
  predicate NoFaults(f: Schedule, d: Files, n: nat) {
    d.up && forall k :: d.ops <= k < d.ops + n ==> f(k).Works?
  }

  /** Without faults an installation saves the live file, if there is one and no backup survives, and
      writes the body; whatever fails, the live file is either untouched or the body. */
  lemma InstallEffect(f: Schedule, d: Files, body: Content)
    ensures var (d', ok) := InstallStep(f, d, body);
            && (NoFaults(f, d, 3) ==> ok && d'.up && d'.backup == if d.live.Some? && d.backup.None? then d.live else d.backup)
            && (if ok then d'.live == Some(body) else d'.live == d.live)
            && (d'.backup == d.backup || (d.backup.None? && d'.backup == d.live))
  {
  }

  /** Without faults a restore puts the backup back and removes it, or, without one, does nothing. */
  lemma RestoreEffect(f: Schedule, d: Files)
    ensures var d' := RestoreStep(f, d);
            && (NoFaults(f, d, 3) ==> d'.up && d'.backup == None && d'.live == if d.backup.Some? then d.backup else d.live)
            && (d'.live == d.live || d'.live == d.backup)
            && (d'.backup == d.backup || d'.backup == None)
  {
  }

  /** From operation `n` on, copying the backup fails, at its read or at its write, and the removal
      after that works. */
  predicate DropsUncopied(f: Schedule, n: nat) {
    || (f(n).Fails? && f(n + 1).Works?)
    || (f(n).Works? && f(n + 1).Fails? && f(n + 2).Works?)
  }

  /** The faults met by a restore that starts at `d` cost the original. */
  predicate Loses(f: Schedule, d: Files, original: Content) {
    d.up && d.backup.Some? && d.live != Some(original) && DropsUncopied(f, d.ops)
  }

  /** A restore keeps the original exactly when it does not remove a backup that an error kept it
      from copying over another live file; a crash never costs anything. */
  lemma RestorePreserves(f: Schedule, d: Files, original: Content)
    requires Preserved(d, original)
    ensures Preserved(RestoreStep(f, d), original) <==> !Loses(f, d, original)
  {
  }

  // ---- any number of lives ----

  /** One life of a client: restart, install and, if that succeeded, restore at the end. */
  function Life(f: Schedule, d: Files, servers: seq<string>): Files {
    var (d1, ok) := InstallStep(f, d.(up := true), Body(servers));
    if ok then RestoreStep(f, d1) else d1
  }

  function Lived(f: Schedule, d: Files, configs: seq<seq<string>>, i: nat): Files
    requires i <= |configs|
  {
    if i == 0 then d else Life(f, Lived(f, d, configs, i - 1), configs[i - 1])
  }

  /** The faults of life `i` cost the original. */
  predicate LosesIn(f: Schedule, d: Files, configs: seq<seq<string>>, i: nat, original: Content)
    requires i < |configs|
  {
    var (d1, ok) := InstallStep(f, Lived(f, d, configs, i).(up := true), Body(configs[i]));
    ok && Loses(f, d1, original)
  }

  method Lives(disk: Disk, configs: seq<seq<string>>)
    modifies disk
    ensures disk.View() == Lived(disk.faults, old(disk.View()), configs, |configs|)
  {
    var i := 0;
    while i < |configs|
      invariant 0 <= i <= |configs|
      invariant disk.View() == Lived(disk.faults, old(disk.View()), configs, i)
    {
      disk.Restart();
      var guard := Install(disk, configs[i]);
      if guard.Some? {
        guard.value.Restore();
      }
      i := i + 1;
    }
  }

  lemma LifePreserves(f: Schedule, d: Files, configs: seq<seq<string>>, i: nat, original: Content)
    requires i < |configs| && Preserved(Lived(f, d, configs, i), original)
    ensures Preserved(Lived(f, d, configs, i + 1), original) <==> !LosesIn(f, d, configs, i, original)
  {
    var d0 := Lived(f, d, configs, i).(up := true);
    InstallPreserves(f, d0, Body(configs[i]), original);
    var (d1, ok) := InstallStep(f, d0, Body(configs[i]));
    if ok {
      RestorePreserves(f, d1, original);
    }
  }

  predicate PreservedThrough(f: Schedule, d: Files, configs: seq<seq<string>>, n: nat, original: Content)
    requires n <= |configs|
  {
    forall i | 0 <= i <= n :: Preserved(Lived(f, d, configs, i), original)
  }

  /** Over any number of lives, whatever fails or crashes wherever, the original is the backup or,
      without one, the live file, exactly as long as no life's restore removed a backup that an
      error kept it from copying over another live file. */
  lemma {:induction false} LivesPreserve(f: Schedule, d: Files, configs: seq<seq<string>>, n: nat, original: Content)
    requires n <= |configs| && Preserved(d, original)
    ensures PreservedThrough(f, d, configs, n, original) <==>
            forall i | 0 <= i < n :: !LosesIn(f, d, configs, i, original)
  {
    if n == 0 {
    } else {
      LivesPreserve(f, d, configs, n - 1, original);
      if PreservedThrough(f, d, configs, n - 1, original) {
        LifePreserves(f, d, configs, n - 1, original);
      } else {
        var i :| 0 <= i < n - 1 && LosesIn(f, d, configs, i, original);
      }
    }
  }

  predicate Gone(d: Files, original: Content) {
    d.live != Some(original) && d.backup != Some(original)
  }

  lemma GoneStaysGone(f: Schedule, d: Files, servers: seq<string>, original: Content)
    requires Gone(d, original) && Body(servers) != original
    ensures Gone(Life(f, d, servers), original)
  {
  }

  lemma LossIsGone(f: Schedule, d: Files, original: Content)
    requires Preserved(d, original) && Loses(f, d, original)
    ensures Gone(RestoreStep(f, d), original)
  {
    RestorePreserves(f, d, original);
    assert RestoreStep(f, d).backup.None?;
  }

  /** One life keeps the original, or loses it for good. */
  lemma LifeKeepsOrLoses(f: Schedule, d: Files, configs: seq<seq<string>>, i: nat, original: Content)
    requires i < |configs| && Preserved(Lived(f, d, configs, i), original)
    ensures if LosesIn(f, d, configs, i, original) then Gone(Lived(f, d, configs, i + 1), original)
            else Preserved(Lived(f, d, configs, i + 1), original)
  {
    var d0 := Lived(f, d, configs, i).(up := true);
    LifePreserves(f, d, configs, i, original);
    if LosesIn(f, d, configs, i, original) {
      InstallPreserves(f, d0, Body(configs[i]), original);
      LossIsGone(f, InstallStep(f, d0, Body(configs[i])).0, original);
    }
  }

  predicate LosesBefore(f: Schedule, d: Files, configs: seq<seq<string>>, n: nat, original: Content)
    requires n <= |configs|
  {
    exists i | 0 <= i < n :: LosesIn(f, d, configs, i, original)
  }

  /** A lost original does not come back, unless a managed file happens to equal it: so the last
      state alone tells whether some restore lost it. */
  lemma {:induction false} OriginalIsKeptOrGone(f: Schedule, d: Files, configs: seq<seq<string>>, n: nat, original: Content)
    requires n <= |configs| && Preserved(d, original) && forall servers :: servers in configs ==> Body(servers) != original
    ensures if LosesBefore(f, d, configs, n, original) then Gone(Lived(f, d, configs, n), original)
            else Preserved(Lived(f, d, configs, n), original)
  {
    if n == 0 {
    } else {
      OriginalIsKeptOrGone(f, d, configs, n - 1, original);
      if LosesBefore(f, d, configs, n - 1, original) {
        assert configs[n - 1] in configs;
        GoneStaysGone(f, Lived(f, d, configs, n - 1), configs[n - 1], original);
      } else {
        LifeKeepsOrLoses(f, d, configs, n - 1, original);
      }
    }
  }

  /** Crashes alone, anywhere in any number of lives, never cost the original; and a life without a
      crash then gives it back and leaves no backup. */
  lemma {:induction false} CrashesAreHarmless(f: Schedule, d: Files, configs: seq<seq<string>>, n: nat, original: Content)
    requires n <= |configs| && Preserved(d, original)
    requires forall k :: !f(k).Fails?
    ensures PreservedThrough(f, d, configs, n, original)
    ensures var d' := Lived(f, d, configs, n);
            n > 0 && d'.up ==> d'.live == Some(original) && d'.backup == None
  {
    LivesPreserve(f, d, configs, n, original);
    if n > 0 && Lived(f, d, configs, n).up {
      var before := Lived(f, d, configs, n - 1);
      assert Preserved(before, original);
      CleanLife(f, before, configs[n - 1], original);
    }
  }

  lemma CleanLife(f: Schedule, d: Files, servers: seq<string>, original: Content)
    requires Preserved(d, original) && (forall k :: !f(k).Fails?) && Life(f, d, servers).up
    ensures Life(f, d, servers).live == Some(original) && Life(f, d, servers).backup == None
  {
    InstallPreserves(f, d.(up := true), Body(servers), original);
    var (d1, ok) := InstallStep(f, d.(up := true), Body(servers));
    assert ok;
    assert Succeeds(f, d1) && Succeeds(f, Tick(f, d1));
  }

  /** Whatever state the last life left, crashed or not, a life that meets no fault gives the original
      back, and leaves the client running. */
  lemma NextLifeRecovers(f: Schedule, d: Files, servers: seq<string>, original: Content)
    requires Preserved(d, original) && forall k :: d.ops <= k < d.ops + 6 ==> f(k).Works?
    ensures var d' := Life(f, d, servers);
            d'.up && d'.live == Some(original) && d'.backup == None
  {
    var d0 := d.(up := true);
    InstallPreserves(f, d0, Body(servers), original);
    InstallEffect(f, d0, Body(servers));
    var (d1, ok) := InstallStep(f, d0, Body(servers));
    assert d1.ops <= d.ops + 3;
    RestoreEffect(f, d1);
  }

  /** A first life whose backup cannot be read back loses the original: the fourth operation is the
      restore's read. */
  lemma FailedCopyLosesOriginal(original: Content, servers: seq<string>)
    requires original != Body(servers)
    ensures var f := n => if n == 3 then Fails else Works;
            var d := Life(f, Files(Some(original), None, true, 0), servers);
            d.live == Some(Body(servers)) && d.backup == None
  {
    var f := n => if n == 3 then Fails else Works;
    var d := Files(Some(original), None, true, 0);
    var (d1, ok) := InstallStep(f, d, Body(servers));
    assert d1 == Files(Some(Body(servers)), Some(original), true, 3) && ok;
    assert RestoreStep(f, d1) == Files(Some(Body(servers)), None, true, 5);
  }
}
