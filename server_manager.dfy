/**
 * The server registry of `src-tauri/src/services/server_manager.rs`: the list of
 * server records, the map from server id to the child process running it, and
 * the map from server id to its console log buffer.
 *
 * The operating system is abstracted away. A child process is a value holding
 * the command line it was started with and the lines written to its standard
 * input; each `try_wait` answer, the outcome of `spawn`, the outcome of a write
 * to the child's stdin, fresh UUIDs and the clock are parameters. Each line the
 * background reader threads receive becomes one `ReaderAppend` call.
 */
module Servers {
  import opened Wrappers
  import opened Strings

  // ---------------------------------------------------------------- data

  datatype ServerInstance = ServerInstance(
    id: string,
    name: string,
    coreType: string,
    coreVersion: string,
    mcVersion: string,
    path: string,
    jarPath: string,
    javaPath: string,
    maxMemory: nat,
    minMemory: nat,
    jvmArgs: seq<string>,
    port: nat,
    createdAt: nat,
    lastStartedAt: Option<nat>)

  datatype CreateServerRequest = CreateServerRequest(
    name: string, coreType: string, mcVersion: string,
    maxMemory: nat, minMemory: nat, port: nat,
    javaPath: string, jarPath: string)

  datatype ImportServerRequest = ImportServerRequest(
    name: string, jarPath: string, javaPath: string, maxMemory: nat, minMemory: nat)

  /** The application settings the manager reads. */
  datatype AppSettings = AppSettings(autoAcceptEula: bool, defaultJvmArgs: string, maxLogLines: nat)

  /** The answer of `Child::try_wait`: exited, still running, or an error. */
  datatype Poll = Exited | StillRunning | PollError

  /** A started child process: its program, arguments, working directory, and
      the lines written to its standard input so far. */
  datatype Process = Process(program: string, args: seq<string>, workDir: string, stdin: seq<string>)

  datatype ServerStatus = Running | Stopped

  datatype ServerStatusInfo = ServerStatusInfo(id: string, status: ServerStatus, pid: Option<nat>, uptime: Option<nat>)

  const StartingMsg := "[Sea Lantern] Server starting..."
  const NotRunningMsg := "[Sea Lantern] Server is not running"
  const SendingStopMsg := "[Sea Lantern] Sending stop command..."
  const GracefulMsg := "[Sea Lantern] Server stopped gracefully"
  const ForceKilledMsg := "[Sea Lantern] Server force-killed after timeout"

  /** The number of polls `stop_server` makes after sending "stop". */
  const GracePolls: nat := 20

  // ---------------------------------------------------------------- record helpers

  function Ids(servers: seq<ServerInstance>): set<string> {
    set s | s in servers :: s.id
  }

  /** The index of the first record with the given id (`iter().find`). */
  function FindServer(servers: seq<ServerInstance>, id: string): (r: Option<nat>)
    ensures r.Some? ==> r.value < |servers| && servers[r.value].id == id
    ensures r.Some? ==> forall j :: 0 <= j < r.value ==> servers[j].id != id
    ensures r.None? <==> id !in Ids(servers)
  {
    if servers == [] then None
    else if servers[0].id == id then Some(0)
    else
      match FindServer(servers[1..], id)
      case None =>
        assert Ids(servers) == {servers[0].id} + Ids(servers[1..]) by {
          assert servers == [servers[0]] + servers[1..];
        }
        None
      case Some(k) =>
        assert servers[1..][k] in servers[1..];
        Some(k + 1)
  }

  /** The records without the given id, in their original order (`retain`). */
  function Without(servers: seq<ServerInstance>, id: string): (r: seq<ServerInstance>)
    ensures forall s :: s in r <==> s in servers && s.id != id
  {
    if servers == [] then []
    else if servers[0].id == id then Without(servers[1..], id)
    else [servers[0]] + Without(servers[1..], id)
  }

  /** Removing an id keeps exactly the other ids. */
  lemma WithoutIds(servers: seq<ServerInstance>, id: string)
    ensures Ids(Without(servers, id)) == Ids(servers) - {id}
  {
    var r := Without(servers, id);
    forall x | x in Ids(servers) - {id} ensures x in Ids(r) {
      var s :| s in servers && s.id == x;
      assert s in r;
    }
  }

  /** Filtering distributes over concatenation: the survivors keep their order. */
  lemma {:induction false} WithoutConcat(a: seq<ServerInstance>, b: seq<ServerInstance>, id: string)
    ensures Without(a + b, id) == Without(a, id) + Without(b, id)
  {
    if a != [] {
      assert (a + b)[1..] == a[1..] + b;
      WithoutConcat(a[1..], b, id);
    } else {
      assert a + b == b;
    }
  }

  /** Removing an id that is not present changes nothing. */
  lemma {:induction false} WithoutAbsent(servers: seq<ServerInstance>, id: string)
    requires id !in Ids(servers)
    ensures Without(servers, id) == servers
  {
    if servers != [] {
      assert servers[0] in servers;
      assert Ids(servers[1..]) <= Ids(servers) by {
        forall x | x in Ids(servers[1..]) ensures x in Ids(servers) {
          var s :| s in servers[1..] && s.id == x;
          assert s in servers;
        }
      }
      WithoutAbsent(servers[1..], id);
      assert servers == [servers[0]] + servers[1..];
    }
  }

  /** Replacing a record by one with the same id keeps the set of ids. */
  lemma UpdateKeepsIds(servers: seq<ServerInstance>, k: nat, s: ServerInstance)
    requires k < |servers| && servers[k].id == s.id
    ensures Ids(servers[k := s]) == Ids(servers)
  {
    var t := servers[k := s];
    forall x | x in Ids(servers) ensures x in Ids(t) {
      var y :| y in servers && y.id == x;
      var j :| 0 <= j < |servers| && servers[j] == y;
      assert t[j].id == x;
    }
    forall x | x in Ids(t) ensures x in Ids(servers) {
      var y :| y in t && y.id == x;
      var j :| 0 <= j < |t| && t[j] == y;
      assert servers[j].id == x;
    }
  }

  // ---------------------------------------------------------------- paths

  /** The target the program is built for; it decides which characters
      separate path components. */
  datatype Platform = Unix | Windows

  /** A component separator: '/' everywhere, and '\' as well on Windows. */
  predicate IsSep(pl: Platform, c: char) {
    c == '/' || (pl == Windows && c == '\\')
  }

  /** The path starts at a root directory. */
  predicate HasRoot(pl: Platform, p: string) {
    |p| > 0 && IsSep(pl, p[0])
  }

  /** The path starts with a "." component, the only "." that
      `Path::components` keeps. */
  predicate LeadingCurDir(pl: Platform, p: string) {
    !HasRoot(pl, p) && |p| > 0 && p[0] == '.' && (|p| == 1 || IsSep(pl, p[1]))
  }

  /** Where the body of the path begins: after its root or its leading ".". */
  function BodyStart(pl: Platform, p: string): (r: nat)
    ensures r <= |p| && r <= 1
  {
    if HasRoot(pl, p) || LeadingCurDir(pl, p) then 1 else 0
  }

  /** The index of the last separator at or after `start`. */
  function LastSepFrom(pl: Platform, s: string, start: nat): (r: Option<nat>)
    ensures r.Some? ==> start <= r.value < |s| && IsSep(pl, s[r.value])
    decreases |s|
  {
    if |s| <= start then None
    else if IsSep(pl, s[|s| - 1]) then Some(|s| - 1)
    else LastSepFrom(pl, s[..|s| - 1], start)
  }

  /** The search for the last separator skips a tail without separators. */
  lemma {:induction false} LastSepFromSkips(pl: Platform, x: string, tail: string, start: nat)
    requires |x| >= start && forall i :: 0 <= i < |tail| ==> !IsSep(pl, tail[i])
    ensures LastSepFrom(pl, x + tail, start) == LastSepFrom(pl, x, start)
    decreases |tail|
  {
    if tail == [] {
      assert x + tail == x;
    } else {
      var p := x + tail;
      assert p[|p| - 1] == tail[|tail| - 1];
      assert p[..|p| - 1] == x + tail[..|tail| - 1];
      LastSepFromSkips(pl, x, tail[..|tail| - 1], start);
    }
  }

  /** Where the path is cut when its last component goes: at the last
      separator of the body, or at the start of the body when it has none. */
  function CutAt(pl: Platform, p: string, start: nat): (r: nat)
    requires start < |p|
    ensures start <= r < |p|
  {
    match LastSepFrom(pl, p, start)
    case None => start
    case Some(i) => i
  }

  /** The text of the last component of the body. */
  function LastComponent(pl: Platform, p: string, start: nat): (r: string)
    requires start < |p|
    ensures |r| <= |p| - CutAt(pl, p, start) && r == p[|p| - |r|..]
  {
    match LastSepFrom(pl, p, start)
    case None => p[start..]
    case Some(i) => p[i + 1..]
  }

  /** `Components::trim_right`: the trailing separators and "." components of
      the body are dropped. */
  function TrimBack(pl: Platform, p: string, start: nat): (r: string)
    ensures |r| <= |p| && r == p[..|r|]
    ensures |p| >= start ==> |r| >= start
    decreases |p|
  {
    if |p| <= start then p
    else
      var c := LastComponent(pl, p, start);
      if c == "" || c == "." then TrimBack(pl, p[..CutAt(pl, p, start)], start) else p
  }

  /** `Path::parent`: the path without its last component and without the
      separators and "." components in front of that; none for the empty path
      and for a root alone. */
  function ParentOf(pl: Platform, p: string): (r: Option<string>)
    ensures r.Some? ==> StartsWith(p, r.value) && |r.value| < |p|
  {
    ParentOfTrimmed(pl, TrimBack(pl, p, BodyStart(pl, p)), BodyStart(pl, p), LeadingCurDir(pl, p))
  }

  /** The parent once the end of the path `q`, whose body starts at `b`, is
      trimmed; `curDir` tells whether the path began with a "." component. */
  function ParentOfTrimmed(pl: Platform, q: string, b: nat, curDir: bool): (r: Option<string>)
    ensures r.Some? ==> StartsWith(q, r.value) && (|r.value| < |q| || (curDir && q == r.value == ""))
  {
    if |q| > b then Some(TrimBack(pl, q[..CutAt(pl, q, b)], b))
    else if curDir then Some("")
    else None
  }

  /** The directory a new server lives in: the parent of its jar, or "." when
      the jar path has none. */
  function ServerDir(pl: Platform, jarPath: string): string {
    ParentOf(pl, jarPath).GetOr(".")
  }

  predicate AllSeps(pl: Platform, seps: string) {
    forall i :: 0 <= i < |seps| ==> IsSep(pl, seps[i])
  }

  /** The path ends in a real component: not in a separator and not in a "."
      component. */
  predicate EndsInComponent(pl: Platform, d: string) {
    |d| > 0 && !IsSep(pl, d[|d| - 1])
    && !(d[|d| - 1] == '.' && (|d| == 1 || IsSep(pl, d[|d| - 2])))
  }

  /** A separator at the end is trimmed away. */
  lemma TrimBackSepStep(pl: Platform, p: string, start: nat)
    requires |p| > start && IsSep(pl, p[|p| - 1])
    ensures TrimBack(pl, p, start) == TrimBack(pl, p[..|p| - 1], start)
  {
    assert LastSepFrom(pl, p, start) == Some(|p| - 1);
    assert CutAt(pl, p, start) == |p| - 1 && LastComponent(pl, p, start) == [];
  }

  /** Trailing separators are trimmed away. */
  lemma {:induction false} TrimBackSeps(pl: Platform, d: string, seps: string, start: nat)
    requires |d| >= start && AllSeps(pl, seps)
    ensures TrimBack(pl, d + seps, start) == TrimBack(pl, d, start)
    decreases |seps|
  {
    if seps == [] {
      assert d + seps == d;
    } else {
      var p := d + seps;
      assert IsSep(pl, p[|p| - 1]);
      TrimBackSepStep(pl, p, start);
      assert p[..|p| - 1] == d + seps[..|seps| - 1];
      TrimBackSeps(pl, d, seps[..|seps| - 1], start);
    }
  }

  /** A path that ends in a component is not trimmed. */
  lemma TrimBackComponent(pl: Platform, d: string)
    requires EndsInComponent(pl, d)
    ensures TrimBack(pl, d, BodyStart(pl, d)) == d
  {
    var b := BodyStart(pl, d);
    if |d| > b {
      var c := LastComponent(pl, d, b);
      assert c != "" && c != "." by {
        match LastSepFrom(pl, d, b)
        case Some(i) =>
          assert i < |d| - 1;
          assert c == d[i + 1..];
          assert i == |d| - 2 || c != ".";
        case None =>
          assert c == d[b..];
      }
    }
  }

  /** The body start of a path is decided by its first two characters. */
  lemma BodyStartPrefix(pl: Platform, d: string, tail: string)
    requires d != [] && (|d| >= 2 || tail == [] || IsSep(pl, tail[0]))
    ensures BodyStart(pl, d + tail) == BodyStart(pl, d)
    ensures LeadingCurDir(pl, d + tail) == LeadingCurDir(pl, d)
  {
    var p := d + tail;
    assert p[0] == d[0];
    if |d| >= 2 {
      assert p[1] == d[1];
    } else if tail != [] {
      assert p[1] == tail[0];
    } else {
      assert p == d;
    }
  }

  /** Separators at the end do not change the parent: `a/` has the parent of `a`. */
  lemma ParentIgnoresTrailingSeparators(pl: Platform, p: string, seps: string)
    requires p != [] && AllSeps(pl, seps)
    ensures ParentOf(pl, p + seps) == ParentOf(pl, p)
  {
    BodyStartPrefix(pl, p, seps);
    TrimBackSeps(pl, p, seps, BodyStart(pl, p));
  }

  /** The empty path and a root alone have no parent, so a server made from
      them lives in ".". */
  lemma RootHasNoParent(pl: Platform, seps: string)
    requires AllSeps(pl, seps)
    ensures ParentOf(pl, seps) == None && ServerDir(pl, seps) == "."
  {
    if seps != [] {
      assert seps == seps[..1] + seps[1..];
      TrimBackSeps(pl, seps[..1], seps[1..], 1);
    }
  }

  /** After a separator, a name without separators is the last component. */
  lemma LastComponentIsName(pl: Platform, x: string, name: string, start: nat)
    requires |x| > start && IsSep(pl, x[|x| - 1])
    requires name != [] && forall i :: 0 <= i < |name| ==> !IsSep(pl, name[i])
    ensures LastComponent(pl, x + name, start) == name && CutAt(pl, x + name, start) == |x| - 1
  {
    LastSepFromSkips(pl, x, name, start);
    assert LastSepFrom(pl, x, start) == Some(|x| - 1);
    assert (x + name)[|x|..] == name;
  }

  /** The parent of a path that is not trimmed drops its last chunk. */
  lemma ParentStep(pl: Platform, p: string, b: nat)
    requires b == BodyStart(pl, p) && b < |p| && TrimBack(pl, p, b) == p
    ensures ParentOf(pl, p) == Some(TrimBack(pl, p[..CutAt(pl, p, b)], b))
  {
  }

  /** The parent of a path ending in a separator and a name is the part
      before that separator, trimmed. */
  lemma ParentOfJoined(pl: Platform, x: string, name: string)
    requires |x| > BodyStart(pl, x + name) && IsSep(pl, x[|x| - 1])
    requires name != [] && name != "." && forall i :: 0 <= i < |name| ==> !IsSep(pl, name[i])
    ensures ParentOf(pl, x + name) == Some(TrimBack(pl, x[..|x| - 1], BodyStart(pl, x + name)))
  {
    var p := x + name;
    var b := BodyStart(pl, p);
    LastComponentIsName(pl, x, name, b);
    assert TrimBack(pl, p, b) == p by {
      assert LastComponent(pl, p, b) == name;
    }
    ParentStep(pl, p, b);
    assert p[..CutAt(pl, p, b)] == x[..|x| - 1];
  }

  /** A jar named `name` inside directory `dir`, whatever separators stand
      between them, lives in `dir` with its trailing separators and "."
      components trimmed; in `dir` itself when `dir` ends in a component. */
  lemma ServerDirOfJarInDir(pl: Platform, dir: string, seps: string, name: string)
    requires dir != [] && seps != [] && AllSeps(pl, seps)
    requires name != [] && name != "." && forall i :: 0 <= i < |name| ==> !IsSep(pl, name[i])
    ensures ServerDir(pl, dir + seps + name) == TrimBack(pl, dir, BodyStart(pl, dir))
    ensures EndsInComponent(pl, dir) ==> ServerDir(pl, dir + seps + name) == dir
  {
    var x := dir + seps;
    BodyStartPrefix(pl, dir, seps + name);
    assert x + name == dir + (seps + name);
    var b := BodyStart(pl, dir);
    ParentOfJoined(pl, x, name);
    assert x[..|x| - 1] == dir + seps[..|seps| - 1];
    TrimBackSeps(pl, dir, seps[..|seps| - 1], b);
    if EndsInComponent(pl, dir) {
      TrimBackComponent(pl, dir);
    }
  }

  /** A bare jar name has the empty parent directory. */
  lemma ServerDirOfBareName(pl: Platform, name: string)
    requires name != [] && forall i :: 0 <= i < |name| ==> !IsSep(pl, name[i])
    ensures ServerDir(pl, name) == ""
  {
    if !LeadingCurDir(pl, name) {
      LastSepFromSkips(pl, [], name, 0);
      assert [] + name == name;
      assert name[0..] == name;
    }
  }

  // ---------------------------------------------------------------- launch

  /** A heap-size option such as `-Xmx2048M`. */
  function HeapArg(flag: string, megabytes: nat): string {
    flag + NatToString(megabytes) + "M"
  }

  /** The number inside a heap-size option reads back as the configured size. */
  lemma HeapArgParses(flag: string, megabytes: nat)
    requires |flag| == 4 && megabytes <= U64_MAX
    ensures var a := HeapArg(flag, megabytes);
      |a| >= 6 && a[..4] == flag && a[|a| - 1] == 'M' && ParseU64(a[4..|a| - 1]) == Some(megabytes)
  {
    var a := HeapArg(flag, megabytes);
    assert a[4..|a| - 1] == NatToString(megabytes);
    ParseRendered(megabytes);
  }

  /** The JVM command-line arguments for a server, in order: heap limits, the
      words of the global default JVM options, the server's own options, then
      the jar and `nogui`. */
  function LaunchArgs(server: ServerInstance, settings: AppSettings): seq<string> {
    var jvm := Trim(settings.defaultJvmArgs, IsRustSpace);
    [HeapArg("-Xmx", server.maxMemory), HeapArg("-Xms", server.minMemory)]
    + (if jvm != [] then SplitWhitespace(jvm) else [])
    + server.jvmArgs
    + ["-jar", server.jarPath, "nogui"]
  }

  /** The child process `start_server` spawns for a server: its Java binary,
      run in the server's directory with the launch arguments. */
  function Launch(server: ServerInstance, settings: AppSettings): Process {
    Process(server.javaPath, LaunchArgs(server, settings), server.path, [])
  }

  /** When the default JVM options are words separated by single spaces, the
      launch arguments contain exactly those words between the heap limits and
      the server's own options. */
  lemma LaunchArgsWords(server: ServerInstance, settings: AppSettings, words: seq<string>)
    requires forall i :: 0 <= i < |words| ==> IsWord(words[i])
    requires settings.defaultJvmArgs == Join(words, " ")
    ensures LaunchArgs(server, settings)
         == [HeapArg("-Xmx", server.maxMemory), HeapArg("-Xms", server.minMemory)]
            + words + server.jvmArgs + ["-jar", server.jarPath, "nogui"]
  {
    if words != [] {
      JoinWordsTrimmed(words);
      SplitWhitespaceJoin(words);
    }
  }

  /** The arguments start with the two heap limits and end with the jar and `nogui`. */
  lemma LaunchArgsFrame(server: ServerInstance, settings: AppSettings)
    ensures var a := LaunchArgs(server, settings);
      |a| >= 5 && a[0] == HeapArg("-Xmx", server.maxMemory) && a[1] == HeapArg("-Xms", server.minMemory)
      && a[|a| - 3..] == ["-jar", server.jarPath, "nogui"]
  {
  }

  // ---------------------------------------------------------------- logs

  /** The last `n` elements of `s` (all of them when there are fewer). */
  function LastN<T>(s: seq<T>, n: nat): (r: seq<T>)
    ensures |r| == if |s| <= n then |s| else n
    ensures r == s[|s| - |r|..]
  {
    if |s| > n then s[|s| - n..] else s
  }

  /** The line a reader thread stores: stderr lines carry a "[STDERR] " tag. */
  function ReaderLine(line: string, isStderr: bool): string {
    if isStderr then "[STDERR] " + line else line
  }

  /** A buffer after a reader has appended each of `lines` in turn. */
  function ReaderAppends<T>(buf: seq<T>, lines: seq<T>, n: nat): seq<T>
    decreases |lines|
  {
    if lines == [] then buf else ReaderAppends(LastN(buf + [lines[0]], n), lines[1..], n)
  }

  /** A run of reader appends leaves exactly the last `n` lines of everything
      appended to the buffer, whatever the buffer held before. */
  lemma {:induction false} ReaderAppendsKeepLast<T>(buf: seq<T>, lines: seq<T>, n: nat)
    requires lines != []
    ensures ReaderAppends(buf, lines, n) == LastN(buf + lines, n)
    decreases |lines|
  {
    var b1 := LastN(buf + [lines[0]], n);
    var rest := lines[1..];
    assert ReaderAppends(buf, lines, n) == ReaderAppends(b1, rest, n);
    if rest == [] {
      assert lines == [lines[0]];
    } else {
      assert buf + lines == (buf + [lines[0]]) + rest by {
        assert lines == [lines[0]] + rest;
      }
      ReaderAppendsKeepLast(b1, rest, n);
      LastNConcat(buf + [lines[0]], rest, n);
    }
  }

  /** Trimming before appending a non-empty run changes nothing once the result
      is trimmed. */
  lemma LastNConcat<T>(s: seq<T>, more: seq<T>, n: nat)
    requires more != []
    ensures LastN(LastN(s, n) + more, n) == LastN(s + more, n)
  {
    var t := LastN(s, n);
    if |s| > n {
      var a, b := t + more, s + more;
      assert |a| == n + |more|;
      forall j | |a| - n <= j < |a| ensures a[j] == b[j + |s| - n] {
        if j < n {
          assert a[j] == t[j] == s[j + |s| - n];
        } else {
          assert a[j] == more[j - n];
        }
      }
      assert a[|a| - n..] == b[|b| - n..];
    }
  }

  /** Two appends in a row are one append of both runs. */
  lemma AppendAllTwice(logs: map<string, seq<string>>, id: string, a: seq<string>, b: seq<string>)
    ensures AppendAll(AppendAll(logs, id, a), id, b) == AppendAll(logs, id, a + b)
  {
    if id in logs {
      assert logs[id] + a + b == logs[id] + (a + b);
    }
  }

  /** Removing a key undoes appending to its lines. */
  lemma AppendThenRemove(logs: map<string, seq<string>>, id: string, msgs: seq<string>)
    ensures AppendAll(logs, id, msgs) - {id} == logs - {id}
  {
  }

  /** Removing a process after writing to it is just removing it. */
  lemma SendThenRemove(processes: map<string, Process>, id: string, command: string, writeError: Option<string>)
    ensures AfterSend(processes, id, command, writeError) - {id} == processes - {id}
  {
  }

  /** Removing an absent key changes nothing. */
  lemma RemoveAbsent<K, V>(m: map<K, V>, k: K)
    requires k !in m
    ensures m - {k} == m
  {
  }

  /** Setting a key after removing it is just setting it. */
  lemma RemoveThenSet<V>(m: map<string, V>, k: string, v: V)
    ensures (m - {k})[k := v] == m[k := v]
  {
  }

  /** `logs` with `msgs` appended to the buffer of `id`, if it has one. */
  function AppendAll(logs: map<string, seq<string>>, id: string, msgs: seq<string>): (r: map<string, seq<string>>)
    ensures r.Keys == logs.Keys
  {
    if id in logs then logs[id := logs[id] + msgs] else logs
  }

  // ---------------------------------------------------------------- stopping

  /** How `stop_server` ends. */
  datatype StopOutcome = NotRunning | StoppedGracefully | PollFailed | ForceKilled

  /** The outcome of the grace period after `done` polls found the process
      still running; `polls(i)` answers the i-th `try_wait` of the call. */
  function GraceOutcome(polls: nat -> Poll, done: nat): (r: StopOutcome)
    requires done <= GracePolls
    ensures r != NotRunning
    decreases GracePolls - done
  {
    if done == GracePolls then ForceKilled
    else
      match polls(done + 1)
      case Exited => StoppedGracefully
      case PollError => PollFailed
      case StillRunning => GraceOutcome(polls, done + 1)
  }

  /** The outcome of `stop_server`: poll 0 decides whether the server is running
      at all, polls 1 to 20 are the grace period. */
  function StopOutcomeOf(hasHandle: bool, polls: nat -> Poll): StopOutcome {
    if hasHandle && polls(0) == StillRunning then GraceOutcome(polls, 0) else NotRunning
  }

  /** The console lines `stop_server` appends for each outcome. */
  function StopMessages(o: StopOutcome): (r: seq<string>)
    ensures |r| >= 1
  {
    match o
    case NotRunning => [NotRunningMsg]
    case StoppedGracefully => [SendingStopMsg, GracefulMsg]
    case PollFailed => [SendingStopMsg]
    case ForceKilled => [SendingStopMsg, ForceKilledMsg]
  }

  lemma {:induction false} GraceOutcomeLocal(p: nat -> Poll, q: nat -> Poll, done: nat)
    requires done <= GracePolls
    requires forall j :: done < j <= GracePolls ==> p(j) == q(j)
    ensures GraceOutcome(p, done) == GraceOutcome(q, done)
    decreases GracePolls - done
  {
    if done < GracePolls {
      GraceOutcomeLocal(p, q, done + 1);
    }
  }

  /** The poll ceiling: `stop_server` never looks past its 21st poll, so two
      environments that agree on polls 0 to 20 produce the same outcome. */
  lemma StopLooksAtMost21Polls(hasHandle: bool, p: nat -> Poll, q: nat -> Poll)
    requires forall j :: 0 <= j <= GracePolls ==> p(j) == q(j)
    ensures StopOutcomeOf(hasHandle, p) == StopOutcomeOf(hasHandle, q)
  {
    GraceOutcomeLocal(p, q, 0);
  }

  lemma {:induction false} GraceForceKill(p: nat -> Poll, done: nat)
    requires done <= GracePolls
    ensures GraceOutcome(p, done) == ForceKilled
        <==> forall j :: done < j <= GracePolls ==> p(j) == StillRunning
    decreases GracePolls - done
  {
    if done < GracePolls {
      GraceForceKill(p, done + 1);
    }
  }

  /** The server is killed exactly when it answered "still running" to all 21 polls. */
  lemma ForceKillIffAlwaysRunning(p: nat -> Poll)
    ensures StopOutcomeOf(true, p) == ForceKilled
        <==> forall j :: 0 <= j <= GracePolls ==> p(j) == StillRunning
  {
    GraceForceKill(p, 0);
  }

  /** The console lines `stop_server` appends for a server that has a handle. */
  function StopLines(polls: string -> nat -> Poll, id: string): seq<string> {
    StopMessages(StopOutcomeOf(true, polls(id)))
  }

  /** `now` is `logs` after each server in `stopped` was stopped once. */
  ghost predicate StoppedLogs(logs: map<string, seq<string>>, now: map<string, seq<string>>,
                              stopped: seq<string>, polls: string -> nat -> Poll) {
    now.Keys == logs.Keys
    && forall id :: id in now ==> now[id] == logs[id] + (if id in stopped then StopLines(polls, id) else [])
  }

  /** `order` lists each of `ids` exactly once. */
  ghost predicate ListsOnce(order: seq<string>, ids: set<string>) {
    (forall a, b :: 0 <= a < b < |order| ==> order[a] != order[b])
    && forall id :: id in ids <==> id in order
  }

  /** Taking the first id off such a list leaves a list of the other ids. */
  lemma ListsOnceTail(order: seq<string>, ids: set<string>)
    requires ListsOnce(order, ids) && order != []
    ensures ListsOnce(order[1..], ids - {order[0]})
    ensures order[0] in ids
  {
    forall k | 1 <= k < |order| ensures order[k] != order[0] {
    }
    assert order == [order[0]] + order[1..];
  }

  /** Stopping one more server appends its lines to its own buffer only. */
  lemma StoppedLogsStep(logs: map<string, seq<string>>, now: map<string, seq<string>>,
                        stopped: seq<string>, id: string, polls: string -> nat -> Poll)
    requires StoppedLogs(logs, now, stopped, polls) && id !in stopped
    ensures StoppedLogs(logs, AppendAll(now, id, StopLines(polls, id)), stopped + [id], polls)
  {
  }

  // ---------------------------------------------------------------- the manager

  /** What `send_command` answers for a server whose handles are `processes`,
      when the write to stdin reports `writeError`. */
  function SendOutcome(processes: map<string, Process>, id: string, writeError: Option<string>): Result<Unit, string> {
    if id !in processes then Err("Server is not running")
    else if writeError.Some? then Err("Failed: " + writeError.value)
    else Ok(Unit)
  }

  /** The handles after `send_command`: the command is on the server's stdin
      exactly when the send succeeded. */
  function AfterSend(processes: map<string, Process>, id: string, command: string, writeError: Option<string>): (r: map<string, Process>)
    ensures r.Keys == processes.Keys
    ensures forall k :: k in processes && k != id ==> r[k] == processes[k]
    ensures id in processes ==> r[id].stdin == processes[id].stdin + (if writeError.None? then [command] else [])
  {
    if SendOutcome(processes, id, writeError).Ok? then
      processes[id := processes[id].(stdin := processes[id].stdin + [command])]
    else processes
  }

  class ServerManager {
    /** The target the program was built for. */
    const platform: Platform
    var servers: seq<ServerInstance>
    var processes: map<string, Process>
    var logs: map<string, seq<string>>

    /** Every server has a log buffer and nothing else does; a process handle
        belongs to a known server. */
    ghost predicate Valid()
      reads this
    {
      logs.Keys == Ids(servers) && processes.Keys <= Ids(servers)
    }

    /** `ServerManager::new` over the records loaded from disk, in a build
        for `target`. */
    constructor (loaded: seq<ServerInstance>, target: Platform)
      ensures Valid()
      ensures platform == target
      ensures servers == loaded && processes == map[]
      ensures logs == map id | id in Ids(loaded) :: []
    {
      platform := target;
      servers := loaded;
      processes := map[];
      logs := map id | id in Ids(loaded) :: [];
    }

    /** `create_server` with `id` a fresh UUID and `now` the current Unix time. */
    method CreateServer(req: CreateServerRequest, id: string, now: nat) returns (server: ServerInstance)
      requires Valid()
      modifies this
      ensures Valid()
      ensures server.id == id && server.name == req.name && server.coreType == req.coreType
      ensures server.coreVersion == "" && server.mcVersion == req.mcVersion
      ensures server.path == ServerDir(platform, req.jarPath) && server.jarPath == req.jarPath
      ensures server.javaPath == req.javaPath && server.port == req.port
      ensures server.maxMemory == req.maxMemory && server.minMemory == req.minMemory
      ensures server.jvmArgs == [] && server.createdAt == now && server.lastStartedAt == None
      ensures servers == old(servers) + [server]
      ensures logs == old(logs)[id := []]
      ensures processes == old(processes)
    {
      server := ServerInstance(id, req.name, req.coreType, "", req.mcVersion,
        ServerDir(platform, req.jarPath), req.jarPath, req.javaPath,
        req.maxMemory, req.minMemory, [], req.port, now, None);
      servers := servers + [server];
      logs := logs[id := []];
    }

    /** `import_server`: `jarExists` answers whether the jar file exists. */
    method ImportServer(req: ImportServerRequest, jarExists: bool, id: string, now: nat)
      returns (r: Result<ServerInstance, string>)
      requires Valid()
      modifies this
      ensures Valid()
      ensures !jarExists ==>
                r == Err("JAR file not found: " + req.jarPath)
                && servers == old(servers) && logs == old(logs) && processes == old(processes)
      ensures jarExists ==>
                r == Ok(ServerInstance(id, req.name, "unknown", "", "unknown",
                          ServerDir(platform, req.jarPath), req.jarPath, req.javaPath,
                          req.maxMemory, req.minMemory, [], 25565, now, None))
                && servers == old(servers) + [r.value]
                && logs == old(logs)[id := []] && processes == old(processes)
    {
      if !jarExists {
        return Err("JAR file not found: " + req.jarPath);
      }
      var s := CreateServer(CreateServerRequest(req.name, "unknown", "unknown",
        req.maxMemory, req.minMemory, 25565, req.javaPath, req.jarPath), id, now);
      r := Ok(s);
    }

    /** `append_log`: push one line to the buffer of `id`, if it has one; no trimming. */
    method AppendLog(id: string, msg: string)
      modifies this`logs
      ensures logs == AppendAll(old(logs), id, [msg])
    {
      if id in logs {
        logs := logs[id := logs[id] + [msg]];
      }
    }

    /** One line read by the stdout (or stderr) reader thread of `id`. */
    method ReaderAppend(id: string, line: string, isStderr: bool, maxLines: nat)
      modifies this`logs
      ensures logs.Keys == old(logs).Keys
      ensures id in logs ==> logs[id] == LastN(old(logs)[id] + [ReaderLine(line, isStderr)], maxLines)
      ensures id in logs ==> |logs[id]| <= maxLines
      ensures forall k :: k in logs && k != id ==> logs[k] == old(logs)[k]
    {
      if id in logs {
        var v := logs[id] + [ReaderLine(line, isStderr)];
        if |v| > maxLines {
          v := v[|v| - maxLines..];
        }
        logs := logs[id := v];
      }
    }

    /** The `try_wait` check shared by start, stop and status: a handle that has
        exited or fails to answer is dropped. */
    method PollHandle(id: string, poll: Poll) returns (alive: bool)
      modifies this`processes
      ensures alive <==> id in old(processes) && poll == StillRunning
      ensures processes == if alive then old(processes) else old(processes) - {id}
    {
      alive := false;
      if id in processes {
        if poll == StillRunning {
          alive := true;
        } else {
          processes := processes - {id};
        }
      }
    }

    /** `start_server`. `poll` answers `try_wait` on an existing handle,
        `spawnError` is the error `spawn` reports (if any), `now` the clock. */
    method StartServer(id: string, settings: AppSettings, poll: Poll, spawnError: Option<string>, now: nat)
      returns (r: Result<Unit, string>)
      requires Valid()
      modifies this
      ensures Valid()
      ensures FindServer(old(servers), id).None? ==>
        r == Err("Server not found") && servers == old(servers)
        && processes == old(processes) && logs == old(logs)
      ensures FindServer(old(servers), id).Some? && id in old(processes) && poll == StillRunning ==>
        r == Err("Server is already running") && servers == old(servers)
        && processes == old(processes) && logs == old(logs)
      ensures (FindServer(old(servers), id).Some? && !(id in old(processes) && poll == StillRunning)
               && spawnError.Some?) ==>
        r == Err("Failed to start: " + spawnError.value) && servers == old(servers)
        && processes == old(processes) - {id} && logs == old(logs)
      ensures (FindServer(old(servers), id).Some? && !(id in old(processes) && poll == StillRunning)
               && spawnError.None?) ==>
        var k := FindServer(old(servers), id).value;
        var s := old(servers)[k];
        r == Ok(Unit)
        && processes == old(processes)[id := Launch(s, settings)]
        && servers == old(servers)[k := s.(lastStartedAt := Some(now))]
        && logs == AppendAll(old(logs), id, [StartingMsg])
    {
      var found := FindServer(servers, id);
      if found.None? {
        return Err("Server not found");
      }
      var server := servers[found.value];
      var alive := PollHandle(id, poll);
      if alive {
        return Err("Server is already running");
      }
      if spawnError.Some? {
        return Err("Failed to start: " + spawnError.value);
      }
      ghost var purged := processes;
      RecordStart(found.value, Launch(server, settings), now);
      RemoveThenSet(old(processes), id, Launch(server, settings));
      r := Ok(Unit);
    }

    /** The successful end of `start_server` for the server at index `k`: its
        child is registered, its start time recorded and "starting" logged. */
    method RecordStart(k: nat, child: Process, now: nat)
      requires Valid() && k < |servers|
      modifies this
      ensures Valid()
      ensures processes == old(processes)[old(servers)[k].id := child]
      ensures servers == old(servers)[k := old(servers)[k].(lastStartedAt := Some(now))]
      ensures logs == AppendAll(old(logs), old(servers)[k].id, [StartingMsg])
    {
      var s := servers[k];
      assert s in servers;
      processes := processes[s.id := child];
      servers := servers[k := s.(lastStartedAt := Some(now))];
      UpdateKeepsIds(old(servers), k, s.(lastStartedAt := Some(now)));
      AppendLog(s.id, StartingMsg);
    }

    /** `send_command`: write one line to the server's stdin; `writeError` is the
        error the write or flush reports (if any). */
    method SendCommand(id: string, command: string, writeError: Option<string>)
      returns (r: Result<Unit, string>)
      modifies this`processes
      ensures id !in old(processes) ==> r == Err("Server is not running") && processes == old(processes)
      ensures id in old(processes) && writeError.Some? ==>
        r == Err("Failed: " + writeError.value) && processes == old(processes)
      ensures id in old(processes) && writeError.None? ==>
        r == Ok(Unit)
        && processes == old(processes)[id := old(processes)[id].(stdin := old(processes)[id].stdin + [command])]
      ensures r == SendOutcome(old(processes), id, writeError)
      ensures processes == AfterSend(old(processes), id, command, writeError)
    {
      if id !in processes {
        return Err("Server is not running");
      }
      if writeError.Some? {
        return Err("Failed: " + writeError.value);
      }
      var child := processes[id];
      processes := processes[id := child.(stdin := child.stdin + [command])];
      r := Ok(Unit);
    }

    /** `stop_server`: `polls(0)` answers the first `try_wait`, `polls(1..20)`
        those of the grace period. Always succeeds and never leaves a handle. */
    method StopServer(id: string, polls: nat -> Poll, writeError: Option<string>)
      requires Valid()
      modifies this
      ensures Valid()
      ensures servers == old(servers)
      ensures processes == old(processes) - {id}
      ensures logs == AppendAll(old(logs), id, StopMessages(StopOutcomeOf(id in old(processes), polls)))
    {
      ghost var outcome := StopOutcomeOf(id in processes, polls);
      var running := PollHandle(id, polls(0));
      if !running {
        assert outcome == NotRunning;
        AppendLog(id, NotRunningMsg);
        return;
      }
      assert outcome == GraceOutcome(polls, 0);
      AppendLog(id, SendingStopMsg);
      ghost var before := processes;
      var _ := SendCommand(id, "stop", writeError);
      SendThenRemove(before, id, "stop", writeError);
      var result := AwaitExit(polls);
      processes := processes - {id};
      assert processes.Keys <= old(processes).Keys;
      LogStopResult(id, result);
      AppendAllTwice(old(logs), id, [SendingStopMsg], StopMessages(result)[1..]);
      assert StopMessages(outcome) == [SendingStopMsg] + StopMessages(result)[1..];
    }

    /** The line `stop_server` logs when the grace period is over: none when
        polling failed. */
    method LogStopResult(id: string, result: StopOutcome)
      requires result != NotRunning
      modifies this`logs
      ensures logs == AppendAll(old(logs), id, StopMessages(result)[1..])
    {
      if result == StoppedGracefully {
        AppendLog(id, GracefulMsg);
      } else if result == ForceKilled {
        AppendLog(id, ForceKilledMsg);
      } else {
        assert StopMessages(result)[1..] == [];
        assert id in logs ==> logs[id] + [] == logs[id];
      }
    }

    /** The grace period of `stop_server`: polls 1 to 20 until one of them
        finds the process gone or failing; force-killed after the last. */
    method AwaitExit(polls: nat -> Poll) returns (result: StopOutcome)
      ensures result == GraceOutcome(polls, 0)
    {
      var i := 0;
      while i < GracePolls
        invariant 0 <= i <= GracePolls
        invariant GraceOutcome(polls, i) == GraceOutcome(polls, 0)
      {
        match polls(i + 1)
        case Exited =>
          return StoppedGracefully;
        case PollError =>
          return PollFailed;
        case StillRunning =>
          i := i + 1;
      }
      return ForceKilled;
    }

    /** `get_server_list`. */
    function ServerList(): (r: seq<ServerInstance>)
      reads this
      requires Valid()
      ensures Ids(r) == logs.Keys
    {
      servers
    }

    /** `get_server_status`: Running exactly when a handle exists and still runs;
        a stale handle is dropped. */
    method GetServerStatus(id: string, poll: Poll) returns (info: ServerStatusInfo)
      requires Valid()
      modifies this`processes
      ensures Valid()
      ensures info.id == id && info.pid == None && info.uptime == None
      ensures info.status == Running <==> id in old(processes) && poll == StillRunning
      ensures processes == if info.status == Running then old(processes) else old(processes) - {id}
    {
      var alive := PollHandle(id, poll);
      info := ServerStatusInfo(id, if alive then Running else Stopped, None, None);
    }

    /** `delete_server`: stops a server that has a handle, then forgets every trace of it. */
    method DeleteServer(id: string, polls: nat -> Poll, writeError: Option<string>)
      requires Valid()
      modifies this
      ensures Valid()
      ensures servers == Without(old(servers), id)
      ensures logs == old(logs) - {id}
      ensures processes == old(processes) - {id}
      ensures id !in Ids(servers) && id !in logs && id !in processes
    {
      if id in processes {
        ghost var before := logs;
        StopServer(id, polls, writeError);
        AppendThenRemove(before, id, StopMessages(StopOutcomeOf(true, polls)));
      } else {
        RemoveAbsent(processes, id);
      }
      servers := Without(servers, id);
      logs := logs - {id};
      WithoutIds(old(servers), id);
    }

    /** `get_logs`: the lines from index `since` on, or nothing. */
    function GetLogs(id: string, since: nat): (r: seq<string>)
      reads this
      ensures id in logs && since < |logs[id]| ==> logs[id] == logs[id][..since] + r
      ensures !(id in logs && since < |logs[id]|) ==> r == []
    {
      if id in logs && since < |logs[id]| then logs[id][since..] else []
    }

    /** `stop_all_servers`: `order` lists the ids with a handle in the map's
        iteration order; `polls(id)` and `writeError(id)` are the environment
        seen by the stop of `id`. */
    method StopAllServers(order: seq<string>, polls: string -> nat -> Poll, writeError: string -> Option<string>)
      requires Valid()
      requires forall id :: id in processes <==> id in order
      requires forall a, b :: 0 <= a < b < |order| ==> order[a] != order[b]
      modifies this
      ensures Valid()
      ensures processes == map[]
      ensures servers == old(servers) && logs.Keys == old(logs).Keys
      ensures forall id :: id in logs ==>
        logs[id] == old(logs)[id] + (if id in old(processes) then StopMessages(StopOutcomeOf(true, polls(id))) else [])
    {
      var i := 0;
      assert order[..0] == [] && order[0..] == order;
      while i < |order|
        invariant 0 <= i <= |order|
        invariant Valid() && servers == old(servers)
        invariant ListsOnce(order[i..], processes.Keys)
        invariant StoppedLogs(old(logs), logs, order[..i], polls)
      {
        var id := order[i];
        assert order[..i + 1] == order[..i] + [id];
        ghost var before := processes;
        ListsOnceTail(order[i..], processes.Keys);
        assert id !in order[..i] by {
          assert order[i..][0] == id;
          forall k | 0 <= k < i ensures order[k] != id {
          }
        }
        StoppedLogsStep(old(logs), logs, order[..i], id, polls);
        StopServer(id, polls(id), writeError(id));
        assert processes.Keys == before.Keys - {id};
        assert order[i..][1..] == order[i + 1..];
        i := i + 1;
      }
      assert order[..|order|] == order;
    }
  }
}
