/**
 * The player commands of `src-tauri/src/commands/player.rs`: console command
 * strings for the whitelist, bans, operators and kicks, sent to a running
 * server through `ServerManager::send_command`, and the case-insensitive
 * removal of a player from `whitelist.json`.
 *
 * The outcome of each stdin write is a parameter, as is the parsed
 * `whitelist.json` of a server directory (`None` when the file is missing,
 * unreadable or not a JSON list of entries).
 */
module Player {
  import opened Wrappers
  import opened Strings
  import opened Servers

  /** An entry of `whitelist.json`. */
  datatype PlayerEntry = PlayerEntry(uuid: string, name: string)

  // ---------------------------------------------------------------- command strings

  /** `format!("{verb} {name}")`. */
  function NameCommand(verb: string, name: string): string {
    verb + " " + name
  }

  /** The `ban` and `kick` commands: the reason is appended, after a space,
      only when it is not empty. */
  function ReasonCommand(verb: string, name: string, reason: string): string {
    if reason == [] then NameCommand(verb, name) else NameCommand(verb, name) + " " + reason
  }

  /** The server reads back what was meant: the first word is the verb, the
      second the name, and the rest (if any) the reason. This holds when the
      verb and the name are single words. */
  lemma ReasonCommandWords(verb: string, name: string, reason: string)
    requires ' ' !in verb && ' ' !in name
    ensures var rest := ReasonCommand(verb, name, reason)[|verb| + 1..];
      SplitOnce(ReasonCommand(verb, name, reason), ' ') == Some((verb, rest))
      && (reason == [] ==> SplitOnce(rest, ' ') == None && rest == name)
      && (reason != [] ==> SplitOnce(rest, ' ') == Some((name, reason)))
  {
    var cmd := ReasonCommand(verb, name, reason);
    var tail := if reason == [] then [] else " " + reason;
    assert cmd == verb + [' '] + (name + tail);
    SplitOnceAt(verb, ' ', name + tail);
    assert cmd[|verb| + 1..] == name + tail;
    if reason != [] {
      assert name + tail == name + [' '] + reason;
      SplitOnceAt(name, ' ', reason);
    }
  }

  /** Different (single-word) names or reasons give different commands. */
  lemma ReasonCommandInjective(verb: string, n1: string, r1: string, n2: string, r2: string)
    requires ' ' !in verb && ' ' !in n1 && ' ' !in n2
    requires ReasonCommand(verb, n1, r1) == ReasonCommand(verb, n2, r2)
    ensures n1 == n2 && r1 == r2
  {
    ReasonCommandWords(verb, n1, r1);
    ReasonCommandWords(verb, n2, r2);
  }

  // ---------------------------------------------------------------- the whitelist filter

  /** Keeps `p` in the whitelist: its name is not `name` ignoring ASCII case. */
  predicate Keeps(name: string, p: PlayerEntry) {
    !EqualsIgnoreAsciiCase(p.name, name)
  }

  /** `list.retain(|p| !p.name.eq_ignore_ascii_case(&name))`, as a value. */
  function Retained(list: seq<PlayerEntry>, name: string): seq<PlayerEntry>
    decreases |list|
  {
    if list == [] then []
    else
      var last := list[|list| - 1];
      Retained(list[..|list| - 1], name) + (if Keeps(name, last) then [last] else [])
  }

  /** The filter removes exactly the entries named `name` in any ASCII case,
      and keeps the others in their order: filtering a concatenation is
      concatenating the filtered parts. */
  lemma {:induction false} RetainedSpec(list: seq<PlayerEntry>, name: string)
    ensures |Retained(list, name)| <= |list|
    ensures forall p :: p in Retained(list, name) <==> p in list && Keeps(name, p)
    decreases |list|
  {
    if list != [] {
      var init := list[..|list| - 1];
      RetainedSpec(init, name);
      assert list == init + [list[|list| - 1]];
    }
  }

  lemma {:induction false} RetainedConcat(a: seq<PlayerEntry>, b: seq<PlayerEntry>, name: string)
    ensures Retained(a + b, name) == Retained(a, name) + Retained(b, name)
    decreases |b|
  {
    if b == [] {
      assert a + b == a;
    } else {
      var init := b[..|b| - 1];
      assert (a + b)[..|a + b| - 1] == a + init;
      RetainedConcat(a, init, name);
    }
  }

  /** A name that no entry carries leaves the list as it is. */
  lemma {:induction false} RetainedAbsent(list: seq<PlayerEntry>, name: string)
    requires forall i :: 0 <= i < |list| ==> Keeps(name, list[i])
    ensures Retained(list, name) == list
    decreases |list|
  {
    if list != [] {
      RetainedAbsent(list[..|list| - 1], name);
    }
  }

  /** Filtering twice is filtering once. */
  lemma RetainedIdempotent(list: seq<PlayerEntry>, name: string)
    ensures Retained(Retained(list, name), name) == Retained(list, name)
  {
    var r := Retained(list, name);
    RetainedSpec(list, name);
    forall i | 0 <= i < |r| ensures Keeps(name, r[i]) {
      assert r[i] in r;
    }
    RetainedAbsent(r, name);
  }

  /** `Vec::retain` in place: the kept entries are moved to the front, in
      order, and their count is returned (the vector's new length). */
  method Retain(a: array<PlayerEntry>, name: string) returns (n: nat)
    modifies a
    ensures n <= a.Length
    ensures a[..n] == Retained(old(a[..]), name)
  {
    ghost var original := a[..];
    var i, w := 0, 0;
    while i < a.Length
      invariant w <= i <= a.Length
      invariant a[..w] == Retained(original[..i], name)
      invariant a[i..] == original[i..]
    {
      assert original[..i + 1][..i] == original[..i];
      assert a[i] == original[i];
      if Keeps(name, a[i]) {
        a[w] := a[i];
        w := w + 1;
      }
      i := i + 1;
    }
    assert original[..a.Length] == original;
    n := w;
  }

  // ---------------------------------------------------------------- the commands

  /** A command's reply: "Sent: {cmd}" when the send succeeded, else the
      send's error, passed on by `?`. */
  function Reply(sent: Result<Unit, string>, cmd: string): (r: Result<string, string>)
    ensures r.Ok? <==> sent.Ok?
    ensures r.Ok? ==> r.value == "Sent: " + cmd
    ensures r.Err? ==> r.error == sent.error
  {
    match sent
    case Ok(_) => Ok("Sent: " + cmd)
    case Err(e) => Err(e)
  }

  /** Send one command and reply with it; the shape shared by `ban_player`,
      `unban_player`, `add_op`, `remove_op` and `kick_player`. */
  method SendAndReply(m: ServerManager, serverId: string, cmd: string, writeError: Option<string>)
    returns (r: Result<string, string>)
    modifies m`processes
    ensures r == Reply(SendOutcome(old(m.processes), serverId, writeError), cmd)
    ensures m.processes == AfterSend(old(m.processes), serverId, cmd, writeError)
  {
    var sent := m.SendCommand(serverId, cmd, writeError);
    if sent.Err? {
      return Err(sent.error);
    }
    return Ok("Sent: " + cmd);
  }

  /** `ban_player`. */
  method BanPlayer(m: ServerManager, serverId: string, name: string, reason: string, writeError: Option<string>)
    returns (r: Result<string, string>)
    modifies m`processes
    ensures r == Reply(SendOutcome(old(m.processes), serverId, writeError), ReasonCommand("ban", name, reason))
    ensures m.processes == AfterSend(old(m.processes), serverId, ReasonCommand("ban", name, reason), writeError)
  {
    var cmd := ReasonCommand("ban", name, reason);
    r := SendAndReply(m, serverId, cmd, writeError);
  }

  /** `unban_player`. */
  method UnbanPlayer(m: ServerManager, serverId: string, name: string, writeError: Option<string>)
    returns (r: Result<string, string>)
    modifies m`processes
    ensures r == Reply(SendOutcome(old(m.processes), serverId, writeError), NameCommand("pardon", name))
    ensures m.processes == AfterSend(old(m.processes), serverId, NameCommand("pardon", name), writeError)
  {
    r := SendAndReply(m, serverId, NameCommand("pardon", name), writeError);
  }

  /** `add_op`. */
  method AddOp(m: ServerManager, serverId: string, name: string, writeError: Option<string>)
    returns (r: Result<string, string>)
    modifies m`processes
    ensures r == Reply(SendOutcome(old(m.processes), serverId, writeError), NameCommand("op", name))
    ensures m.processes == AfterSend(old(m.processes), serverId, NameCommand("op", name), writeError)
  {
    r := SendAndReply(m, serverId, NameCommand("op", name), writeError);
  }

  /** `remove_op`. */
  method RemoveOp(m: ServerManager, serverId: string, name: string, writeError: Option<string>)
    returns (r: Result<string, string>)
    modifies m`processes
    ensures r == Reply(SendOutcome(old(m.processes), serverId, writeError), NameCommand("deop", name))
    ensures m.processes == AfterSend(old(m.processes), serverId, NameCommand("deop", name), writeError)
  {
    r := SendAndReply(m, serverId, NameCommand("deop", name), writeError);
  }

  /** `kick_player`. */
  method KickPlayer(m: ServerManager, serverId: string, name: string, reason: string, writeError: Option<string>)
    returns (r: Result<string, string>)
    modifies m`processes
    ensures r == Reply(SendOutcome(old(m.processes), serverId, writeError), ReasonCommand("kick", name, reason))
    ensures m.processes == AfterSend(old(m.processes), serverId, ReasonCommand("kick", name, reason), writeError)
  {
    var cmd := ReasonCommand("kick", name, reason);
    r := SendAndReply(m, serverId, cmd, writeError);
  }

  /** `add_to_whitelist`: fails when "whitelist add {name}" cannot be sent;
      otherwise also sends "whitelist reload", whose failure is ignored, and
      replies with the first command. */
  method AddToWhitelist(m: ServerManager, serverId: string, name: string,
                        addError: Option<string>, reloadError: Option<string>)
    returns (r: Result<string, string>)
    modifies m`processes
    ensures r == Reply(SendOutcome(old(m.processes), serverId, addError), NameCommand("whitelist add", name))
    ensures r.Err? ==> m.processes == old(m.processes)
    ensures r.Ok? ==> (m.processes ==
      AfterSend(AfterSend(old(m.processes), serverId, NameCommand("whitelist add", name), addError),
                serverId, "whitelist reload", reloadError))
  {
    var cmd := NameCommand("whitelist add", name);
    var sent := m.SendCommand(serverId, cmd, addError);
    if sent.Err? {
      return Err(sent.error);
    }
    var _ := m.SendCommand(serverId, "whitelist reload", reloadError);
    return Ok("Sent: " + cmd);
  }

  /** The file half of `remove_from_whitelist`: when the server is known and
      the `whitelist.json` in its directory parses, that list without `name`
      (ignoring ASCII case) is written back; `written` is what is written,
      and where. */
  method RewriteWhitelist(servers: seq<ServerInstance>, serverId: string, name: string,
                          whitelistAt: string -> Option<seq<PlayerEntry>>)
    returns (written: Option<(string, seq<PlayerEntry>)>)
    ensures written.Some? <==>
      FindServer(servers, serverId).Some? && whitelistAt(servers[FindServer(servers, serverId).value].path).Some?
    ensures written.Some? ==>
      var dir := servers[FindServer(servers, serverId).value].path;
      written.value == (dir, Retained(whitelistAt(dir).value, name))
  {
    var found := FindServer(servers, serverId);
    if found.None? {
      return None;
    }
    var dir := servers[found.value].path;
    var parsed := whitelistAt(dir);
    if parsed.None? {
      return None;
    }
    var list := parsed.value;
    var a := new PlayerEntry[|list|](i requires 0 <= i < |list| => list[i]);
    assert a[..] == list;
    var n := Retain(a, name);
    return Some((dir, a[..n]));
  }

  /** `remove_from_whitelist`: sends "whitelist remove {name}", rewrites the
      whitelist file as `RewriteWhitelist` does, then sends "whitelist
      reload". Whatever fails, the reply is "Removed: {name}". */
  method RemoveFromWhitelist(m: ServerManager, serverId: string, name: string,
                             removeError: Option<string>, whitelistAt: string -> Option<seq<PlayerEntry>>,
                             reloadError: Option<string>)
    returns (r: Result<string, string>, written: Option<(string, seq<PlayerEntry>)>)
    requires m.Valid()
    modifies m`processes
    ensures r == Ok("Removed: " + name)
    ensures m.processes ==
      AfterSend(AfterSend(old(m.processes), serverId, NameCommand("whitelist remove", name), removeError),
                serverId, "whitelist reload", reloadError)
    ensures written.Some? <==>
      FindServer(m.servers, serverId).Some? && whitelistAt(m.servers[FindServer(m.servers, serverId).value].path).Some?
    ensures written.Some? ==>
      var dir := m.servers[FindServer(m.servers, serverId).value].path;
      written.value == (dir, Retained(whitelistAt(dir).value, name))
  {
    var cmd := NameCommand("whitelist remove", name);
    var _ := m.SendCommand(serverId, cmd, removeError);
    var servers := m.ServerList();
    written := RewriteWhitelist(servers, serverId, name, whitelistAt);
    var _ := m.SendCommand(serverId, "whitelist reload", reloadError);
    r := Ok("Removed: " + name);
  }
}
