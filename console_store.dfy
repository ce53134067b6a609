/**
 * The console store of `src/stores/consoleStore.ts`: one log buffer and one
 * read cursor per server id, and the id of the server whose console is shown.
 * The buffers are bounded the same way as the backend's (`Servers.LastN`), but
 * only `AppendLogs` trims; a line appended locally is never dropped on arrival.
 */
module Console {
  import opened Wrappers
  import Servers

  /** Lines kept per server by `AppendLogs`. */
  const MaxLines: nat := 5000

  /** A buffer after `AppendLogs` has added `newLines` to `buf`. */
  function Appended(buf: seq<string>, newLines: seq<string>): (r: seq<string>)
  {
    Servers.LastN(buf + newLines, MaxLines)
  }

  /** `AppendLogs` keeps at most `MaxLines` lines, newest last: the result is the
      tail of the old buffer followed by the new lines, and nothing is dropped
      while the total fits. */
  lemma AppendedKeepsNewest(buf: seq<string>, newLines: seq<string>)
    ensures var r := Appended(buf, newLines);
      |r| <= MaxLines
      && r == (buf + newLines)[|buf| + |newLines| - |r|..]
      && (|buf| + |newLines| <= MaxLines ==> r == buf + newLines)
      && (|buf| + |newLines| > MaxLines ==> |r| == MaxLines)
      && (|newLines| <= MaxLines ==> r[|r| - |newLines|..] == newLines)
  {
    var r := Appended(buf, newLines);
    if |newLines| <= MaxLines {
      var s := buf + newLines;
      if |s| > MaxLines {
        assert |r| == MaxLines;
        forall j | 0 <= j < |newLines| ensures r[|r| - |newLines| + j] == newLines[j] {
          assert r[|r| - |newLines| + j] == s[|s| - |newLines| + j];
        }
      }
    }
  }

  /** Two `AppendLogs` calls for one server leave what a single call with both
      runs of lines leaves: the buffer always holds the newest lines. */
  lemma {:induction false} AppendedTwice(buf: seq<string>, a: seq<string>, b: seq<string>)
    ensures Appended(Appended(buf, a), b) == Appended(buf, a + b)
  {
    assert buf + a + b == buf + (a + b);
    if b == [] {
      assert Appended(buf, a) + b == Appended(buf, a);
      assert buf + (a + b) == buf + a;
    } else {
      Servers.LastNConcat(buf + a, b, MaxLines);
    }
  }

  class ConsoleStore {
    var logs: map<string, seq<string>>
    var cursors: map<string, int>
    var activeServer: Option<string>

    constructor()
      ensures logs == map[] && cursors == map[] && activeServer == None
    {
      logs := map[];
      cursors := map[];
      activeServer := None;
    }

    /** The buffer of server `id`; a server never seen has an empty one. */
    function Buffer(id: string): seq<string>
      reads this
    {
      if id in logs then logs[id] else []
    }

    /** The read cursor of server `id`: 0 until one has been set. */
    function Cursor(id: string): int
      reads this
    {
      if id in cursors then cursors[id] else 0
    }

    /** Creates the buffer if needed, appends every new line in order, then
        drops lines from the front until at most `MaxLines` remain. */
    method AppendLogs(id: string, newLines: seq<string>)
      modifies this
      ensures logs == old(logs)[id := Appended(old(Buffer(id)), newLines)]
      ensures cursors == old(cursors) && activeServer == old(activeServer)
    {
      ghost var before := Buffer(id);
      if id !in logs {
        logs := logs[id := []];
      }
      assert logs[id] == before;
      var buf := logs[id] + newLines;
      if |buf| > MaxLines {
        var drain := |buf| - MaxLines;
        buf := buf[drain..];
      }
      assert buf == Appended(before, newLines);
      logs := logs[id := buf];
    }

    /** Creates the buffer if needed and appends one line, without trimming. */
    method AppendLocal(id: string, line: string)
      modifies this
      ensures logs == old(logs)[id := old(Buffer(id)) + [line]]
      ensures cursors == old(cursors) && activeServer == old(activeServer)
    {
      if id !in logs {
        logs := logs[id := []];
      }
      logs := logs[id := logs[id] + [line]];
    }

    /** The cursor last set for `id`, or 0. */
    method GetLogCursor(id: string) returns (cursor: int)
      ensures cursor == Cursor(id)
      ensures id !in cursors ==> cursor == 0
    {
      cursor := if id in cursors then cursors[id] else 0;
    }

    method SetLogCursor(id: string, cursor: int)
      modifies this
      ensures cursors == old(cursors)[id := cursor]
      ensures Cursor(id) == cursor
      ensures logs == old(logs) && activeServer == old(activeServer)
    {
      cursors := cursors[id := cursor];
    }

    /** Empties the buffer of `id` (creating it if absent); the cursor is kept,
        so lines already fetched are not fetched again. */
    method ClearLogs(id: string)
      modifies this
      ensures logs == old(logs)[id := []]
      ensures cursors == old(cursors) && activeServer == old(activeServer)
    {
      if id in logs {
        var buf := logs[id];
        buf := buf[|buf|..];
        logs := logs[id := buf];
      } else {
        logs := logs[id := []];
      }
    }

    method SetActiveServer(id: Option<string>)
      modifies this
      ensures activeServer == id
      ensures logs == old(logs) && cursors == old(cursors)
    {
      activeServer := id;
    }
  }
}
