/**
 * The `.properties` reader, the comment-preserving writer and the described,
 * sorted entry list of `src-tauri/src/services/config_parser.rs`, over the
 * text of the file instead of the file itself.
 *
 * The format is a subset of Java's: `#` comment lines, a key and a value
 * split at the first '=', both trimmed; no escapes, no ':' separator and no
 * continuation lines.
 */
module ConfigParser {
  import opened Wrappers
  import opened Strings
  import opened Orders

  // ---------------------------------------------------------------- lines

  /** `line` without one trailing carriage return. */
  function StripCr(line: string): (r: string)
    ensures |r| <= |line| && r == line[..|r|]
    ensures r == line || line == r + ['\r']
  {
    if line != [] && line[|line| - 1] == '\r' then line[..|line| - 1] else line
  }

  /** `str::lines`: the pieces between '\n' characters, each without one
      '\r' just before its '\n'; a final line ending adds no empty line. */
  function Lines(s: string): (r: seq<string>)
    ensures forall i :: 0 <= i < |r| ==> '\n' !in r[i]
    decreases |s|
  {
    if s == [] then []
    else if '\n' in s then
      var i := FirstIndexOf(s, '\n');
      var line := StripCr(s[..i]);
      assert '\n' !in line by {
        assert forall k :: 0 <= k < |line| ==> line[k] == s[..i][k];
      }
      [line] + Lines(s[i + 1..])
    else [s]
  }

  /** Every line followed by '\n', as `write_properties` emits them. */
  function Unlines(lines: seq<string>): (r: string)
    ensures lines != [] ==> r != [] && r[|r| - 1] == '\n'
  {
    if lines == [] then "" else lines[0] + "\n" + Unlines(lines[1..])
  }

  function StripCrs(lines: seq<string>): (r: seq<string>)
    ensures |r| == |lines|
  {
    if lines == [] then [] else [StripCr(lines[0])] + StripCrs(lines[1..])
  }

  /** Reading back lines written by `Unlines` gives them again, up to one
      trailing carriage return each. */
  lemma {:induction false} LinesOfUnlines(lines: seq<string>)
    requires forall i :: 0 <= i < |lines| ==> '\n' !in lines[i]
    ensures Lines(Unlines(lines)) == StripCrs(lines)
  {
    if lines != [] {
      var s := Unlines(lines);
      var first := lines[0];
      assert s == first + ['\n'] + Unlines(lines[1..]);
      assert s[|first|] == '\n';
      var i := FirstIndexOf(s, '\n');
      assert forall k :: 0 <= k < |first| ==> s[k] == first[k];
      assert forall k {:trigger s[k]} :: 0 <= k < i ==> s[..i][k] == s[k];
      assert i == |first|;
      assert s[..i] == first && s[i + 1..] == Unlines(lines[1..]);
      LinesOfUnlines(lines[1..]);
    }
  }

  lemma {:induction false} UnlinesConcat(a: seq<string>, b: seq<string>)
    ensures Unlines(a + b) == Unlines(a) + Unlines(b)
  {
    if a != [] {
      assert (a + b)[1..] == a[1..] + b;
      UnlinesConcat(a[1..], b);
    } else {
      assert a + b == b;
    }
  }

  // ---------------------------------------------------------------- reading

  /** The key and value a line defines: none for a blank line, a comment or a
      line without '='; otherwise the trimmed text before and after the first
      '=' of the trimmed line. */
  function ParseLine(line: string): Option<(string, string)> {
    var trimmed := Trim(line, IsRustSpace);
    if trimmed == [] || trimmed[0] == '#' then None
    else match SplitOnce(trimmed, '=')
      case None => None
      case Some((k, v)) => Some((Trim(k, IsRustSpace), Trim(v, IsRustSpace)))
  }

  function KeyOf(line: string): Option<string> {
    match ParseLine(line)
    case Some((k, _)) => Some(k)
    case None => None
  }

  /** `map` after one line: a defining line inserts or overwrites its key. */
  function Insert(m: map<string, string>, line: string): map<string, string> {
    match ParseLine(line)
    case None => m
    case Some((k, v)) => m[k := v]
  }

  /** `m` after the lines, first to last. */
  function PropsFrom(m: map<string, string>, lines: seq<string>): map<string, string>
    decreases |lines|
  {
    if lines == [] then m else PropsFrom(Insert(m, lines[0]), lines[1..])
  }

  /** The map `read_properties` builds from the text of a file. */
  function Properties(text: string): map<string, string> {
    PropsFrom(map[], Lines(text))
  }

  /** `read_properties`: a file that cannot be read is an error, otherwise
      its lines are folded into a map. */
  method ReadProperties(content: Result<string, string>) returns (r: Result<map<string, string>, string>)
    ensures content.Err? ==> r == Err("Failed to read file: " + content.error)
    ensures content.Ok? ==> r == Ok(Properties(content.value))
  {
    if content.Err? {
      return Err("Failed to read file: " + content.error);
    }
    var lines := Lines(content.value);
    var m: map<string, string> := map[];
    var i := 0;
    while i < |lines|
      invariant 0 <= i <= |lines|
      invariant PropsFrom(m, lines[i..]) == Properties(content.value)
    {
      var trimmed := Trim(lines[i], IsRustSpace);
      if trimmed != [] && trimmed[0] != '#' {
        var eq := SplitOnce(trimmed, '=');
        if eq.Some? {
          m := m[Trim(eq.value.0, IsRustSpace) := Trim(eq.value.1, IsRustSpace)];
        }
      }
      assert lines[i..][1..] == lines[i + 1..];
      i := i + 1;
    }
    return Ok(m);
  }

  lemma {:induction false} PropsConcat(m: map<string, string>, a: seq<string>, b: seq<string>)
    ensures PropsFrom(m, a + b) == PropsFrom(PropsFrom(m, a), b)
    decreases |a|
  {
    if a != [] {
      assert (a + b)[1..] == a[1..] + b;
      PropsConcat(Insert(m, a[0]), a[1..], b);
    } else {
      assert a + b == b;
    }
  }

  /** A key is present exactly when it was present before or some line
      defines it. */
  lemma {:induction false} DefinedKeys(m: map<string, string>, lines: seq<string>, k: string)
    ensures k in PropsFrom(m, lines) <==> k in m || exists i :: 0 <= i < |lines| && KeyOf(lines[i]) == Some(k)
    decreases |lines|
  {
    if lines != [] {
      DefinedKeys(Insert(m, lines[0]), lines[1..], k);
      if exists i :: 0 <= i < |lines[1..]| && KeyOf(lines[1..][i]) == Some(k) {
        var i :| 0 <= i < |lines[1..]| && KeyOf(lines[1..][i]) == Some(k);
        assert KeyOf(lines[i + 1]) == Some(k);
      }
      if exists i :: 0 <= i < |lines| && KeyOf(lines[i]) == Some(k) {
        var i :| 0 <= i < |lines| && KeyOf(lines[i]) == Some(k);
        if i > 0 {
          assert KeyOf(lines[1..][i - 1]) == Some(k);
        }
      }
    }
  }

  /** Lines that do not define `k` leave its entry alone. */
  lemma {:induction false} UntouchedKey(m: map<string, string>, lines: seq<string>, k: string)
    requires forall i :: 0 <= i < |lines| ==> KeyOf(lines[i]) != Some(k)
    ensures k in PropsFrom(m, lines) <==> k in m
    ensures k in m ==> PropsFrom(m, lines)[k] == m[k]
    decreases |lines|
  {
    if lines != [] {
      assert KeyOf(lines[0]) != Some(k);
      UntouchedKey(Insert(m, lines[0]), lines[1..], k);
    }
  }

  /** A later line for the same key overwrites an earlier one: the value is
      that of the last line defining the key. */
  lemma LastDefinitionWins(m: map<string, string>, before: seq<string>, line: string, after: seq<string>, k: string, v: string)
    requires ParseLine(line) == Some((k, v))
    requires forall i :: 0 <= i < |after| ==> KeyOf(after[i]) != Some(k)
    ensures k in PropsFrom(m, before + [line] + after)
    ensures PropsFrom(m, before + [line] + after)[k] == v
  {
    PropsConcat(m, before + [line], after);
    PropsConcat(m, before, [line]);
    UntouchedKey(PropsFrom(m, before + [line]), after, k);
  }

  /** A key that is trimmed, has no '=' and no line break and does not start
      with '#'; only such keys survive a write and a read. */
  predicate PlainKey(k: string) {
    Trim(k, IsRustSpace) == k && '=' !in k && '\n' !in k && (k == [] || k[0] != '#')
  }

  /** A value that is trimmed and has no line break; it may contain '='. */
  predicate PlainValue(v: string) {
    Trim(v, IsRustSpace) == v && '\n' !in v
  }

  /** The line `key=value` reads back as that key and value; the value keeps
      any '=' it contains. */
  lemma ParsePlainLine(k: string, v: string)
    requires PlainKey(k) && PlainValue(v)
    ensures ParseLine(k + "=" + v) == Some((k, v))
    ensures '\n' !in k + "=" + v
  {
    var line := k + "=" + v;
    assert line == k + ['='] + v;
    assert line[0] == (if k == [] then '=' else k[0]);
    assert line[|line| - 1] == (if v == [] then '=' else v[|v| - 1]);
    TrimOfTrimmed(line, IsRustSpace);
    SplitOnceAt(k, '=', v);
  }

  /** A line read with its trailing carriage return defines the same entry. */
  lemma ParseStripCr(line: string)
    ensures ParseLine(StripCr(line)) == ParseLine(line)
  {
    if StripCr(line) != line {
      TrimDropsTrailingSpace(StripCr(line), '\r', IsRustSpace);
    }
  }

  lemma {:induction false} PropsStripCrs(m: map<string, string>, lines: seq<string>)
    ensures PropsFrom(m, StripCrs(lines)) == PropsFrom(m, lines)
    decreases |lines|
  {
    if lines != [] {
      ParseStripCr(lines[0]);
      assert StripCrs(lines)[1..] == StripCrs(lines[1..]);
      PropsStripCrs(Insert(m, lines[0]), lines[1..]);
    }
  }

  // ---------------------------------------------------------------- writing

  /** A line of the original file as `write_properties` writes it: a line
      whose key has a new value becomes `key=value`, any other line is kept. */
  function RewriteLine(line: string, values: map<string, string>): string {
    match KeyOf(line)
    case Some(k) => if k in values then k + "=" + values[k] else line
    case None => line
  }

  function RewriteAll(lines: seq<string>, values: map<string, string>): (r: seq<string>)
    ensures |r| == |lines|
  {
    if lines == [] then [] else [RewriteLine(lines[0], values)] + RewriteAll(lines[1..], values)
  }

  /** The key recorded as written for one line: its key when it was rewritten. */
  function WrittenKey(line: string, values: map<string, string>): seq<string> {
    match KeyOf(line)
    case Some(k) => if k in values then [k] else []
    case None => []
  }

  /** The keys `write_properties` rewrote in place, in line order. */
  function WrittenKeys(lines: seq<string>, values: map<string, string>): seq<string> {
    if lines == [] then [] else WrittenKey(lines[0], values) + WrittenKeys(lines[1..], values)
  }

  /** `key=value` for every key of `order` that was not rewritten in place. */
  function NewLines(order: seq<string>, values: map<string, string>, written: seq<string>): (r: seq<string>)
    requires forall i :: 0 <= i < |order| ==> order[i] in values
    ensures |r| <= |order|
  {
    if order == [] then []
    else
      (if order[0] in written then [] else [order[0] + "=" + values[order[0]]])
      + NewLines(order[1..], values, written)
  }

  /** The text `write_properties` writes: the original lines, rewritten, then
      the keys that had no line, each line ended by '\n'. `order` is the
      iteration order of the `values` map. */
  function WriteText(original: string, values: map<string, string>, order: seq<string>): string
    requires forall i :: 0 <= i < |order| ==> order[i] in values
  {
    var lines := Lines(original);
    Unlines(RewriteAll(lines, values) + NewLines(order, values, WrittenKeys(lines, values)))
  }

  /** Every key appears once in the iteration order of a map. */
  ghost predicate Enumerates(order: seq<string>, values: map<string, string>) {
    && (forall k :: k in order <==> k in values)
    && (forall i, j :: 0 <= i < j < |order| ==> order[i] != order[j])
  }

  /** One pass of the copying loop of `write_properties`: the text written for
      `line` and the key it records as written. */
  method RewriteOne(line: string, values: map<string, string>) returns (text: string, written: seq<string>)
    ensures text == RewriteLine(line, values)
    ensures written == WrittenKey(line, values)
  {
    var trimmed := Trim(line, IsRustSpace);
    if trimmed == [] || trimmed[0] == '#' {
      return line, [];
    }
    var eq := SplitOnce(trimmed, '=');
    if eq.None? {
      return line, [];
    }
    var key := Trim(eq.value.0, IsRustSpace);
    if key in values {
      return key + "=" + values[key], [key];
    }
    return line, [];
  }

  lemma Regroup<T>(a: seq<T>, b: seq<T>, c: seq<T>, d: seq<T>)
    ensures a + (b + c + d) == a + b + c + d
  {
  }

  lemma Regroup3<T>(a: seq<T>, b: seq<T>, c: seq<T>)
    ensures a + (b + c) == a + b + c
  {
  }

  lemma UnlinesCons(line: string, rest: seq<string>)
    ensures Unlines([line] + rest) == line + "\n" + Unlines(rest)
  {
    assert ([line] + rest)[1..] == rest;
  }

  /** One line of the copying loop, on the specification side. */
  lemma CopyStep(lines: seq<string>, i: nat, values: map<string, string>)
    requires i < |lines|
    ensures Unlines(RewriteAll(lines[i..], values))
      == RewriteLine(lines[i], values) + "\n" + Unlines(RewriteAll(lines[i + 1..], values))
    ensures WrittenKeys(lines[i..], values) == WrittenKey(lines[i], values) + WrittenKeys(lines[i + 1..], values)
  {
    assert lines[i..][1..] == lines[i + 1..];
    UnlinesCons(RewriteLine(lines[i], values), RewriteAll(lines[i + 1..], values));
  }

  /** The copying loop of `write_properties`: every original line, rewritten,
      and the keys written in place. */
  method CopyLines(lines: seq<string>, values: map<string, string>) returns (output: string, written: seq<string>)
    ensures output == Unlines(RewriteAll(lines, values))
    ensures written == WrittenKeys(lines, values)
  {
    output := "";
    written := [];
    var i := 0;
    while i < |lines|
      invariant 0 <= i <= |lines|
      invariant output + Unlines(RewriteAll(lines[i..], values)) == Unlines(RewriteAll(lines, values))
      invariant written + WrittenKeys(lines[i..], values) == WrittenKeys(lines, values)
    {
      var text, key := RewriteOne(lines[i], values);
      CopyStep(lines, i, values);
      Regroup3(output, text + "\n", Unlines(RewriteAll(lines[i + 1..], values)));
      Regroup3(written, key, WrittenKeys(lines[i + 1..], values));
      output := output + (text + "\n");
      written := written + key;
      i := i + 1;
    }
    assert lines[|lines|..] == [];
  }

  /** The text the appending loop adds for one key. */
  function NewText(key: string, values: map<string, string>, written: seq<string>): string
    requires key in values
  {
    if key in written then "" else key + "=" + values[key] + "\n"
  }

  /** One key of the appending loop, on the specification side. */
  lemma AppendStep(order: seq<string>, j: nat, values: map<string, string>, written: seq<string>)
    requires j < |order|
    requires forall i :: 0 <= i < |order| ==> order[i] in values
    ensures Unlines(NewLines(order[j..], values, written))
      == NewText(order[j], values, written) + Unlines(NewLines(order[j + 1..], values, written))
  {
    assert order[j..][1..] == order[j + 1..];
    var rest := NewLines(order[j + 1..], values, written);
    if order[j] !in written {
      UnlinesCons(order[j] + "=" + values[order[j]], rest);
    } else {
      assert NewLines(order[j..], values, written) == rest;
    }
  }

  /** The appending loop of `write_properties`: `key=value` for the keys not
      written in place, in the map's iteration order. */
  method AppendMissing(order: seq<string>, values: map<string, string>, written: seq<string>) returns (output: string)
    requires forall i :: 0 <= i < |order| ==> order[i] in values
    ensures output == Unlines(NewLines(order, values, written))
  {
    output := "";
    var j := 0;
    while j < |order|
      invariant 0 <= j <= |order|
      invariant output + Unlines(NewLines(order[j..], values, written)) == Unlines(NewLines(order, values, written))
    {
      var key := order[j];
      var text := "";
      if key !in written {
        text := key + "=" + values[key] + "\n";
      }
      AppendStep(order, j, values, written);
      Regroup3(output, text, Unlines(NewLines(order[j + 1..], values, written)));
      output := output + text;
      j := j + 1;
    }
    assert order[|order|..] == [];
  }

  /** `write_properties`: an unreadable original counts as empty, and a
      failed write is reported. `output` is the text written. */
  method WriteProperties(original: Option<string>, values: map<string, string>, order: seq<string>, writeError: Option<string>)
    returns (output: string, r: Result<Unit, string>)
    requires Enumerates(order, values)
    ensures output == WriteText(original.GetOr(""), values, order)
    ensures writeError.None? ==> r == Ok(Unit)
    ensures writeError.Some? ==> r == Err("Failed to write file: " + writeError.value)
  {
    assert forall i :: 0 <= i < |order| ==> order[i] in values by {
      forall i | 0 <= i < |order| ensures order[i] in values {
        assert order[i] in order;
      }
    }
    var lines := Lines(original.GetOr(""));
    var copied, written := CopyLines(lines, values);
    var appended := AppendMissing(order, values, written);
    output := copied + appended;
    UnlinesConcat(RewriteAll(lines, values), NewLines(order, values, written));
    if writeError.Some? {
      r := Err("Failed to write file: " + writeError.value);
    } else {
      r := Ok(Unit);
    }
  }

  /** Every line `write_properties` emits ends in '\n'. */
  lemma WriteEndsWithNewline(original: string, values: map<string, string>, order: seq<string>)
    requires forall i :: 0 <= i < |order| ==> order[i] in values
    ensures var out := WriteText(original, values, order);
      out == [] || out[|out| - 1] == '\n'
  {
  }

  /** The map read from the rewritten lines (`a`) and from the original ones
      (`b`) agree once the new values are laid over both, and `a` already holds
      the new value of each key it has. */
  ghost predicate Agree(a: map<string, string>, b: map<string, string>, values: map<string, string>) {
    && a + values == b + values
    && forall k :: k in values && k in a ==> a[k] == values[k]
  }

  /** A key with a new value: both maps take a value for it, and the
      rewritten side takes the new one. */
  lemma AgreeRewritten(a: map<string, string>, b: map<string, string>, values: map<string, string>, k: string, v: string)
    requires Agree(a, b, values) && k in values
    ensures Agree(a[k := values[k]], b[k := v], values)
    ensures forall x :: x in values ==> (x in a[k := values[k]] <==> x in a || x == k)
  {
    assert a[k := values[k]] + values == a + values;
    assert b[k := v] + values == b + values;
  }

  /** A key without a new value: both maps take the same value for it. */
  lemma AgreeKept(a: map<string, string>, b: map<string, string>, values: map<string, string>, k: string, v: string)
    requires Agree(a, b, values) && k !in values
    ensures Agree(a[k := v], b[k := v], values)
    ensures forall x :: x in values ==> (x in a[k := v] <==> x in a)
  {
    var a', b' := a[k := v] + values, b[k := v] + values;
    assert a'.Keys == b'.Keys by {
      assert a'.Keys == (a + values).Keys + {k};
      assert b'.Keys == (b + values).Keys + {k};
    }
    forall x | x in a'
      ensures a'[x] == b'[x]
    {
      if x != k && x !in values {
        assert a'[x] == (a + values)[x] && b'[x] == (b + values)[x];
      }
    }
  }

  /** A line whose key has a new value. */
  lemma StepRewritten(a: map<string, string>, b: map<string, string>, line: string, values: map<string, string>, k: string, v: string)
    requires ParseLine(line) == Some((k, v)) && k in values
    requires PlainKey(k) && PlainValue(values[k])
    requires Agree(a, b, values)
    ensures Agree(Insert(a, RewriteLine(line, values)), Insert(b, line), values)
    ensures forall x :: x in values ==>
      (x in Insert(a, RewriteLine(line, values)) <==> x in a || x in WrittenKey(line, values))
  {
    ParsePlainLine(k, values[k]);
    assert Insert(a, RewriteLine(line, values)) == a[k := values[k]];
    assert WrittenKey(line, values) == [k];
    AgreeRewritten(a, b, values, k, v);
  }

  /** A defining line whose key has no new value. */
  lemma StepKept(a: map<string, string>, b: map<string, string>, line: string, values: map<string, string>, k: string, v: string)
    requires ParseLine(line) == Some((k, v)) && k !in values
    requires Agree(a, b, values)
    ensures Agree(Insert(a, RewriteLine(line, values)), Insert(b, line), values)
    ensures forall x :: x in values ==>
      (x in Insert(a, RewriteLine(line, values)) <==> x in a || x in WrittenKey(line, values))
  {
    assert RewriteLine(line, values) == line && WrittenKey(line, values) == [];
    AgreeKept(a, b, values, k, v);
  }

  /** One original line and its rewritten form keep the two maps in agreement. */
  lemma RewriteStep(a: map<string, string>, b: map<string, string>, line: string, values: map<string, string>)
    requires forall k :: k in values ==> PlainKey(k) && PlainValue(values[k])
    requires Agree(a, b, values)
    ensures Agree(Insert(a, RewriteLine(line, values)), Insert(b, line), values)
    ensures forall k :: k in values ==>
      (k in Insert(a, RewriteLine(line, values)) <==> k in a || k in WrittenKey(line, values))
  {
    match ParseLine(line)
    case None =>
      assert RewriteLine(line, values) == line && WrittenKey(line, values) == [];
    case Some((k, v)) =>
      if k in values {
        StepRewritten(a, b, line, values, k, v);
      } else {
        StepKept(a, b, line, values, k, v);
      }
  }

  /** Reading the rewritten lines: the keys of `values` end up with their new
      values when a line defined them, and the other keys as without the
      rewrite. */
  lemma {:induction false} RewriteRead(a: map<string, string>, b: map<string, string>, lines: seq<string>, values: map<string, string>)
    requires forall k :: k in values ==> PlainKey(k) && PlainValue(values[k])
    requires Agree(a, b, values)
    ensures Agree(PropsFrom(a, RewriteAll(lines, values)), PropsFrom(b, lines), values)
    ensures forall k :: k in values ==>
      (k in PropsFrom(a, RewriteAll(lines, values)) <==> k in a || k in WrittenKeys(lines, values))
    decreases |lines|
  {
    if lines != [] {
      var line := lines[0];
      var rest := lines[1..];
      var r := RewriteAll(lines, values);
      assert r[0] == RewriteLine(line, values) && r[1..] == RewriteAll(rest, values);
      RewriteStep(a, b, line, values);
      RewriteRead(Insert(a, RewriteLine(line, values)), Insert(b, line), rest, values);
    }
  }

  /** Reading the appended lines sets exactly the keys they were written for. */
  lemma {:induction false} NewLinesRead(m: map<string, string>, order: seq<string>, values: map<string, string>, written: seq<string>)
    requires forall k :: k in values ==> PlainKey(k) && PlainValue(values[k])
    requires forall i :: 0 <= i < |order| ==> order[i] in values
    ensures forall k :: k in PropsFrom(m, NewLines(order, values, written)) <==> k in m || (k in order && k !in written)
    ensures forall k :: k in PropsFrom(m, NewLines(order, values, written)) ==>
      PropsFrom(m, NewLines(order, values, written))[k] == if k in order && k !in written then values[k] else m[k]
    decreases |order|
  {
    if order != [] {
      var k := order[0];
      var piece := if k in written then [] else [k + "=" + values[k]];
      var tail := NewLines(order[1..], values, written);
      PropsConcat(m, piece, tail);
      if k !in written {
        ParsePlainLine(k, values[k]);
      }
      NewLinesRead(PropsFrom(m, piece), order[1..], values, written);
      assert forall x :: x in order <==> x == k || x in order[1..];
    }
  }

  /** Round trip: reading what `write_properties` wrote gives the new value for
      every key of `values` and the old value for every other key, provided the
      keys and values are plain. */
  lemma WriteThenRead(original: string, values: map<string, string>, order: seq<string>)
    requires Enumerates(order, values)
    requires forall k :: k in values ==> PlainKey(k) && PlainValue(values[k])
    ensures Properties(WriteText(original, values, order)) == Properties(original) + values
  {
    var lines := Lines(original);
    var rewritten := RewriteAll(lines, values);
    var written := WrittenKeys(lines, values);
    var added := NewLines(order, values, written);
    var mid := PropsFrom(map[], rewritten);
    var result := PropsFrom(mid, added);
    assert Properties(WriteText(original, values, order)) == result by {
      var all := rewritten + added;
      RewrittenHasNoBreaks(lines, values);
      NewLinesHaveNoBreaks(order, values, written);
      assert forall i :: 0 <= i < |all| ==> '\n' !in all[i] by {
        forall i | 0 <= i < |all| ensures '\n' !in all[i] {
          if i >= |rewritten| {
            assert all[i] == added[i - |rewritten|];
          }
        }
      }
      LinesOfUnlines(all);
      PropsStripCrs(map[], all);
      PropsConcat(map[], rewritten, added);
    }
    RewriteRead(map[], map[], lines, values);
    NewLinesRead(mid, order, values, written);
    MergedResult(mid, Properties(original), result, values, order, written);
  }

  /** The last step of the round trip, on maps alone. */
  lemma MergedResult(mid: map<string, string>, before: map<string, string>, result: map<string, string>,
                     values: map<string, string>, order: seq<string>, written: seq<string>)
    requires Enumerates(order, values)
    requires Agree(mid, before, values)
    requires forall k :: k in values ==> (k in mid <==> k in written)
    requires forall k :: k in result <==> k in mid || (k in order && k !in written)
    requires forall k :: k in result ==> result[k] == if k in order && k !in written then values[k] else mid[k]
    ensures result == before + values
  {
    forall k ensures k in result <==> k in before + values {
      if k !in values {
        assert k in mid + values <==> k in before + values;
      }
    }
    forall k | k in result
      ensures result[k] == (before + values)[k]
    {
      if k !in values {
        assert (mid + values)[k] == mid[k];
      }
    }
  }

  lemma {:induction false} RewrittenHasNoBreaks(lines: seq<string>, values: map<string, string>)
    requires forall k :: k in values ==> PlainKey(k) && PlainValue(values[k])
    requires forall i :: 0 <= i < |lines| ==> '\n' !in lines[i]
    ensures forall i :: 0 <= i < |lines| ==> '\n' !in RewriteAll(lines, values)[i]
    decreases |lines|
  {
    if lines != [] {
      RewrittenHasNoBreaks(lines[1..], values);
      assert '\n' !in RewriteLine(lines[0], values) by {
        match KeyOf(lines[0])
        case Some(k) =>
          if k in values {
            PlainLineHasNoBreak(k, values[k]);
          }
        case None =>
      }
      var r := RewriteAll(lines, values);
      forall i | 0 <= i < |lines| ensures '\n' !in r[i] {
        if i > 0 {
          assert r[i] == RewriteAll(lines[1..], values)[i - 1];
          assert lines[1..][i - 1] == lines[i];
        }
      }
    }
  }

  lemma PlainLineHasNoBreak(k: string, v: string)
    requires '\n' !in k && '\n' !in v
    ensures '\n' !in k + "=" + v
  {
  }

  lemma {:induction false} NewLinesHaveNoBreaks(order: seq<string>, values: map<string, string>, written: seq<string>)
    requires forall k :: k in values ==> PlainKey(k) && PlainValue(values[k])
    requires forall i :: 0 <= i < |order| ==> order[i] in values
    ensures forall i :: 0 <= i < |NewLines(order, values, written)| ==> '\n' !in NewLines(order, values, written)[i]
    decreases |order|
  {
    if order != [] {
      var k := order[0];
      var piece := if k in written then [] else [k + "=" + values[k]];
      var tail := NewLines(order[1..], values, written);
      NewLinesHaveNoBreaks(order[1..], values, written);
      PlainLineHasNoBreak(k, values[k]);
      var r := piece + tail;
      forall i | 0 <= i < |r| ensures '\n' !in r[i] {
        if i >= |piece| {
          assert r[i] == tail[i - |piece|];
        }
      }
    }
  }

  // ---------------------------------------------------------------- entries

  /** A known property: description, value type, default and category. */
  datatype PropertyInfo = PropertyInfo(description: string, valueType: string, defaultValue: string, category: string)

  /** `get_property_descriptions`. */
  const Descriptions: map<string, PropertyInfo> := map[
    "server-port" := PropertyInfo("服务器端口", "number", "25565", "network"),
    "server-ip" := PropertyInfo("服务器绑定IP，留空表示所有", "string", "", "network"),
    "max-players" := PropertyInfo("最大玩家数", "number", "20", "player"),
    "online-mode" := PropertyInfo("正版验证", "boolean", "true", "player"),
    "white-list" := PropertyInfo("启用白名单", "boolean", "false", "player"),
    "enforce-whitelist" := PropertyInfo("强制白名单", "boolean", "false", "player"),
    "gamemode" := PropertyInfo("默认游戏模式", "select", "survival", "game"),
    "difficulty" := PropertyInfo("游戏难度", "select", "easy", "game"),
    "hardcore" := PropertyInfo("极限模式", "boolean", "false", "game"),
    "pvp" := PropertyInfo("允许PVP", "boolean", "true", "game"),
    "allow-flight" := PropertyInfo("允许飞行", "boolean", "false", "game"),
    "allow-nether" := PropertyInfo("允许下界", "boolean", "true", "world"),
    "spawn-monsters" := PropertyInfo("生成怪物", "boolean", "true", "world"),
    "spawn-animals" := PropertyInfo("生成动物", "boolean", "true", "world"),
    "spawn-npcs" := PropertyInfo("生成NPC", "boolean", "true", "world"),
    "generate-structures" := PropertyInfo("生成结构", "boolean", "true", "world"),
    "level-name" := PropertyInfo("世界名称", "string", "world", "world"),
    "level-seed" := PropertyInfo("世界种子", "string", "", "world"),
    "level-type" := PropertyInfo("世界类型", "string", "minecraft:normal", "world"),
    "view-distance" := PropertyInfo("视距", "number", "10", "performance"),
    "simulation-distance" := PropertyInfo("模拟距离", "number", "10", "performance"),
    "max-tick-time" := PropertyInfo("最大tick时间(ms)，-1为禁用", "number", "60000", "performance"),
    "network-compression-threshold" := PropertyInfo("网络压缩阈值", "number", "256", "performance"),
    "motd" := PropertyInfo("服务器描述(MOTD)", "string", "A Minecraft Server", "display"),
    "enable-command-block" := PropertyInfo("启用命令方块", "boolean", "false", "game"),
    "enable-query" := PropertyInfo("启用Query协议", "boolean", "false", "network"),
    "enable-rcon" := PropertyInfo("启用RCON远程控制", "boolean", "false", "network"),
    "enable-status" := PropertyInfo("启用服务器列表状态", "boolean", "true", "network"),
    "force-gamemode" := PropertyInfo("强制游戏模式", "boolean", "false", "game"),
    "spawn-protection" := PropertyInfo("出生点保护半径", "number", "16", "world"),
    "sync-chunk-writes" := PropertyInfo("同步区块写入", "boolean", "true", "performance")
  ]

  datatype ConfigEntry = ConfigEntry(key: string, value: string, description: string,
    valueType: string, defaultValue: string, category: string)

  datatype ServerProperties = ServerProperties(entries: seq<ConfigEntry>, raw: map<string, string>)

  /** The entry for one property: described from the table, or an "other"
      string property with no description or default. */
  function EntryFor(key: string, value: string): (e: ConfigEntry)
    ensures e.key == key && e.value == value
    ensures key !in Descriptions ==>
      e.description == "" && e.valueType == "string" && e.defaultValue == "" && e.category == "other"
    ensures key in Descriptions ==>
      var d := Descriptions[key];
      e.description == d.description && e.valueType == d.valueType
      && e.defaultValue == d.defaultValue && e.category == d.category
  {
    if key in Descriptions then
      var d := Descriptions[key];
      ConfigEntry(key, value, d.description, d.valueType, d.defaultValue, d.category)
    else ConfigEntry(key, value, "", "string", "", "other")
  }

  /** The sort key of the entries: category, then key. */
  function CompareEntries(a: ConfigEntry, b: ConfigEntry): Ordering {
    match CompareStrings(a.category, b.category)
    case Equal => CompareStrings(a.key, b.key)
    case o => o
  }

  /** `CompareEntries` is a total preorder. */
  lemma CompareEntriesOrder(a: ConfigEntry, b: ConfigEntry, c: ConfigEntry)
    ensures CompareEntries(a, b) == CompareEntries(b, a).Flip()
    ensures CompareEntries(a, b) != Greater && CompareEntries(b, c) != Greater ==> CompareEntries(a, c) != Greater
  {
    CompareStringsOrder(a.category, b.category, c.category);
    CompareStringsOrder(a.key, b.key, c.key);
    CompareStringsOrder(a.category, c.category, b.category);
    CompareStringsOrder(a.key, c.key, b.key);
    CompareStringsOrder(b.category, c.category, a.category);
    CompareStringsOrder(b.key, c.key, a.key);
  }

  predicate SortedEntries(s: seq<ConfigEntry>) {
    forall i, j :: 0 <= i < j < |s| ==> CompareEntries(s[i], s[j]) != Greater
  }

  /** `x` sorts at or below every entry of `s`. */
  predicate AtMostAll(x: ConfigEntry, s: seq<ConfigEntry>) {
    forall j :: 0 <= j < |s| ==> CompareEntries(x, s[j]) != Greater
  }

  /** `e` placed after every entry that does not sort above it. */
  function InsertEntry(sorted: seq<ConfigEntry>, e: ConfigEntry): (r: seq<ConfigEntry>)
    ensures multiset(r) == multiset(sorted) + multiset{e}
  {
    if sorted == [] then [e]
    else if CompareEntries(e, sorted[0]) == Less then [e] + sorted
    else
      assert sorted == [sorted[0]] + sorted[1..];
      [sorted[0]] + InsertEntry(sorted[1..], e)
  }

  lemma SortedCons(x: ConfigEntry, s: seq<ConfigEntry>)
    requires AtMostAll(x, s) && SortedEntries(s)
    ensures SortedEntries([x] + s)
  {
    var r := [x] + s;
    forall i, j | 0 <= i < j < |r| ensures CompareEntries(r[i], r[j]) != Greater {
      assert r[j] == s[j - 1];
      if i > 0 {
        assert r[i] == s[i - 1];
      }
    }
  }

  /** Inserting into a sorted list keeps it sorted. */
  lemma {:induction false} InsertEntrySorted(sorted: seq<ConfigEntry>, e: ConfigEntry)
    requires SortedEntries(sorted)
    ensures SortedEntries(InsertEntry(sorted, e))
    decreases |sorted|
  {
    if sorted != [] {
      var first := sorted[0];
      if CompareEntries(e, first) == Less {
        forall j | 0 <= j < |sorted| ensures CompareEntries(e, sorted[j]) != Greater {
          CompareEntriesOrder(e, first, sorted[j]);
        }
        SortedCons(e, sorted);
      } else {
        var tail := sorted[1..];
        var rest := InsertEntry(tail, e);
        assert SortedEntries(tail) by {
          forall i, j | 0 <= i < j < |tail| ensures CompareEntries(tail[i], tail[j]) != Greater {
            assert tail[i] == sorted[i + 1] && tail[j] == sorted[j + 1];
          }
        }
        InsertEntrySorted(tail, e);
        forall j | 0 <= j < |rest| ensures CompareEntries(first, rest[j]) != Greater {
          var x := rest[j];
          assert x in multiset(rest);
          if x == e {
            CompareEntriesOrder(e, first, first);
          } else {
            assert x in multiset(tail);
            var m :| 0 <= m < |tail| && tail[m] == x;
            assert sorted[m + 1] == x;
          }
        }
        SortedCons(first, rest);
      }
    }
  }

  /** `entries.sort_by(...)`, as an insertion sort (the source's sort is
      stable, as is this one). */
  method SortEntries(s: seq<ConfigEntry>) returns (r: seq<ConfigEntry>)
    ensures SortedEntries(r)
    ensures multiset(r) == multiset(s)
  {
    r := [];
    var i := 0;
    while i < |s|
      invariant 0 <= i <= |s|
      invariant SortedEntries(r)
      invariant multiset(r) == multiset(s[..i])
    {
      assert s[..i + 1] == s[..i] + [s[i]];
      InsertEntrySorted(r, s[i]);
      r := InsertEntry(r, s[i]);
      i := i + 1;
    }
    assert s[..|s|] == s;
  }

  /** Two lists with the same multiset have the same length and elements. */
  lemma SameElements<T>(a: seq<T>, b: seq<T>)
    requires multiset(a) == multiset(b)
    ensures |a| == |b|
    ensures forall x :: x in a <==> x in b
  {
    assert |multiset(a)| == |multiset(b)|;
    forall x ensures x in a <==> x in b {
      assert x in a <==> x in multiset(a);
      assert x in b <==> x in multiset(b);
    }
  }

  /** The entries of the raw map in its iteration order, before sorting. */
  method EntriesInOrder(m: map<string, string>, order: seq<string>) returns (entries: seq<ConfigEntry>)
    requires forall i :: 0 <= i < |order| ==> order[i] in m
    ensures |entries| == |order|
    ensures forall j :: 0 <= j < |order| ==> entries[j] == EntryFor(order[j], m[order[j]])
  {
    entries := [];
    var i := 0;
    while i < |order|
      invariant 0 <= i <= |order|
      invariant |entries| == i
      invariant forall j :: 0 <= j < i ==> entries[j] == EntryFor(order[j], m[order[j]])
    {
      entries := entries + [EntryFor(order[i], m[order[i]])];
      i := i + 1;
    }
  }

  /** `parse_server_properties`: one described entry per property, sorted by
      category and key, next to the raw map; a read failure propagates.
      `order` is the iteration order of the raw map. */
  method ParseServerProperties(content: Result<string, string>, order: seq<string>) returns (r: Result<ServerProperties, string>)
    requires content.Ok? ==> Enumerates(order, Properties(content.value))
    ensures content.Err? ==> r == Err("Failed to read file: " + content.error)
    ensures content.Ok? ==> r.Ok? && r.value.raw == Properties(content.value)
    ensures r.Ok? ==> SortedEntries(r.value.entries)
    ensures r.Ok? ==> |r.value.entries| == |order|
    ensures r.Ok? ==> forall i :: 0 <= i < |r.value.entries| ==>
      var e := r.value.entries[i];
      e.key in r.value.raw && e == EntryFor(e.key, r.value.raw[e.key])
    ensures r.Ok? ==> forall k :: k in r.value.raw ==> exists i :: 0 <= i < |r.value.entries| && r.value.entries[i].key == k
  {
    var raw := ReadProperties(content);
    if raw.Err? {
      return Err(raw.error);
    }
    var m := raw.value;
    assert forall i :: 0 <= i < |order| ==> order[i] in m by {
      forall i | 0 <= i < |order| ensures order[i] in m {
        assert order[i] in order;
      }
    }
    var entries := EntriesInOrder(m, order);
    var sorted := SortEntries(entries);
    SameElements(sorted, entries);
    forall j | 0 <= j < |sorted|
      ensures sorted[j].key in m && sorted[j] == EntryFor(sorted[j].key, m[sorted[j].key])
    {
      assert sorted[j] in entries;
      var x :| 0 <= x < |entries| && entries[x] == sorted[j];
    }
    forall k | k in m
      ensures exists j :: 0 <= j < |sorted| && sorted[j].key == k
    {
      var x :| 0 <= x < |order| && order[x] == k;
      assert entries[x] in sorted;
      var j :| 0 <= j < |sorted| && sorted[j] == entries[x];
    }
    r := Ok(ServerProperties(sorted, m));
  }
}
