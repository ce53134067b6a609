/**
 * The integer and string formatters of `src/utils/format.ts`: server paths,
 * uptimes, truncation, player names, port numbers and Java version labels.
 *
 * Numbers are integers here (the callers pass whole seconds, lengths and
 * ports); `toLowerCase` is ASCII-only, and string lengths count Unicode
 * scalar values.
 */
module Format {
  import opened Wrappers
  import opened Strings

  // ---------------------------------------------------------------- JavaScript helpers

  function Clamp(i: int, len: nat): (r: nat)
    ensures r <= len
    ensures 0 <= i <= len ==> r == i
  {
    if i < 0 then 0 else if i > len then len else i
  }

  /** `String.prototype.substring`: both ends clamped to the string, and
      swapped when they come in the wrong order. */
  function Substring(s: string, start: int, end: int): (r: string)
    ensures |r| <= |s|
    ensures 0 <= start <= end <= |s| ==> r == s[start..end]
  {
    var a := Clamp(start, |s|);
    var b := Clamp(end, |s|);
    if a <= b then s[a..b] else s[b..a]
  }

  // ---------------------------------------------------------------- formatServerPath

  const SlashMarker := "servers/"
  const BackslashMarker := "servers\\"

  /** `formatServerPath`: the path from its first "servers/" on, else from its
      first "servers\" on, else the whole path. */
  function FormatServerPath(path: string): (r: string)
    ensures |r| <= |path| && r == path[|path| - |r|..]
    ensures Contains(path, SlashMarker) ==>
      StartsWith(r, SlashMarker) && forall j :: 0 <= j < |path| - |r| ==> !OccursAt(path, SlashMarker, j)
    ensures !Contains(path, SlashMarker) && Contains(path, BackslashMarker) ==>
      StartsWith(r, BackslashMarker) && forall j :: 0 <= j < |path| - |r| ==> !OccursAt(path, BackslashMarker, j)
    ensures !Contains(path, SlashMarker) && !Contains(path, BackslashMarker) ==> r == path
  {
    match IndexOf(path, SlashMarker)
    case Some(i) => Substring(path, i, |path|)
    case None =>
      match IndexOf(path, BackslashMarker)
      case Some(i) => Substring(path, i, |path|)
      case None => path
  }

  /** A marker that does not occur in a string does not occur in its suffixes. */
  lemma AbsentFromSuffix(s: string, k: nat, marker: string)
    requires k <= |s|
    requires !Contains(s, marker)
    ensures !Contains(s[k..], marker)
  {
    forall j | OccursAt(s[k..], marker, j)
      ensures OccursAt(s, marker, k + j)
    {
      assert s[k..][j..j + |marker|] == s[k + j..k + j + |marker|];
    }
  }

  /** A path that starts with a marker is its own suffix from that marker. */
  lemma StartsWithFound(s: string, marker: string)
    requires StartsWith(s, marker)
    ensures IndexOf(s, marker) == Some(0)
  {
    assert OccursAt(s, marker, 0);
  }

  /** Shortening a path a second time changes nothing. */
  lemma FormatServerPathIdempotent(path: string)
    ensures FormatServerPath(FormatServerPath(path)) == FormatServerPath(path)
  {
    var r := FormatServerPath(path);
    if Contains(path, SlashMarker) {
      StartsWithFound(r, SlashMarker);
      ShortestAt(r);
    } else if Contains(path, BackslashMarker) {
      AbsentFromSuffix(path, |path| - |r|, SlashMarker);
      StartsWithFound(r, BackslashMarker);
      ShortestAt(r);
    }
  }

  /** A path whose first marker is at its start is left as it is. */
  lemma ShortestAt(p: string)
    requires IndexOf(p, SlashMarker) == Some(0)
      || (IndexOf(p, SlashMarker).None? && IndexOf(p, BackslashMarker) == Some(0))
    ensures FormatServerPath(p) == p
  {
    assert Substring(p, 0, |p|) == p[0..|p|] == p;
  }

  // ---------------------------------------------------------------- formatUptime

  function Days(s: nat): nat { s / 86400 }
  function Hours(s: nat): nat { s % 86400 / 3600 }
  function Minutes(s: nat): nat { s % 3600 / 60 }
  function Secs(s: nat): nat { s % 60 }

  /** Whole days, hours, minutes and seconds make up the uptime, each below
      its next unit. */
  lemma UptimeDecomposes(s: nat)
    ensures Hours(s) < 24 && Minutes(s) < 60 && Secs(s) < 60
    ensures Days(s) * 86400 + Hours(s) * 3600 + Minutes(s) * 60 + Secs(s) == s
  {
    var q1, r1 := s / 86400, s % 86400;
    var h, r2 := r1 / 3600, r1 % 3600;
    var m, r3 := r2 / 60, r2 % 60;
    var x := 24 * q1 + h;
    assert s == 3600 * x + r2;
    Mod3600(s, x, r2);
    var y := 60 * x + m;
    assert s == 60 * y + r3;
    Mod60(s, y, r3);
  }

  lemma Mod3600(a: nat, q: nat, r: nat)
    requires a == 3600 * q + r && r < 3600
    ensures a % 3600 == r
  {
  }

  lemma Mod60(a: nat, q: nat, r: nat)
    requires a == 60 * q + r && r < 60
    ensures a % 60 == r
  {
  }

  /** The units shown, as `(amount, unit)` pairs, in the order `formatUptime`
      pushes them: the nonzero day, hour and minute counts, and the seconds
      only when none of those is shown. */
  function Units(s: nat): seq<(nat, string)> {
    var dhm := (if Days(s) > 0 then [(Days(s), "天")] else [])
      + (if Hours(s) > 0 then [(Hours(s), "小时")] else [])
      + (if Minutes(s) > 0 then [(Minutes(s), "分钟")] else []);
    if Secs(s) > 0 && dhm == [] then [(Secs(s), "秒")] else dhm
  }

  function Render(u: (nat, string)): string {
    NatToString(u.0) + u.1
  }

  /** The `parts` array. */
  function UptimeParts(s: nat): (p: seq<string>)
    ensures |p| == |Units(s)| && forall i :: 0 <= i < |p| ==> p[i] == Render(Units(s)[i])
  {
    seq(|Units(s)|, i requires 0 <= i < |Units(s)| => Render(Units(s)[i]))
  }

  /** `formatUptime`: the parts joined by spaces; "0秒" when there are none or
      the input is negative. */
  function FormatUptime(seconds: int): (r: string)
    ensures seconds <= 0 ==> r == "0秒"
    ensures seconds > 0 ==> r == Join(UptimeParts(seconds), " ")
  {
    if seconds < 0 then "0秒"
    else
      var parts := UptimeParts(seconds);
      if |parts| > 0 then Join(parts, " ") else "0秒"
  }

  function UnitWeight(unit: string): nat {
    if unit == "天" then 86400
    else if unit == "小时" then 3600
    else if unit == "分钟" then 60
    else 1
  }

  /** The time a list of units stands for. */
  function Total(us: seq<(nat, string)>): nat
    decreases |us|
  {
    if us == [] then 0 else us[0].0 * UnitWeight(us[0].1) + Total(us[1..])
  }

  lemma {:induction false} TotalConcat(a: seq<(nat, string)>, b: seq<(nat, string)>)
    ensures Total(a + b) == Total(a) + Total(b)
    decreases |a|
  {
    if a == [] {
      assert a + b == b;
    } else {
      assert (a + b)[1..] == a[1..] + b;
      TotalConcat(a[1..], b);
    }
  }

  /** What `formatUptime` shows: only nonzero amounts; a day, hour or minute
      part exactly when that count is nonzero; a seconds part exactly when the
      uptime is under a minute (and positive); something exactly when the
      uptime is positive. */
  lemma UptimeShows(s: nat)
    ensures forall i :: 0 <= i < |Units(s)| ==> Units(s)[i].0 > 0
    ensures Days(s) > 0 <==> (exists i :: 0 <= i < |Units(s)| && Units(s)[i] == (Days(s), "天"))
    ensures Hours(s) > 0 <==> (exists i :: 0 <= i < |Units(s)| && Units(s)[i] == (Hours(s), "小时"))
    ensures Minutes(s) > 0 <==> (exists i :: 0 <= i < |Units(s)| && Units(s)[i] == (Minutes(s), "分钟"))
    ensures 0 < s < 60 <==> (exists i :: 0 <= i < |Units(s)| && Units(s)[i].1 == "秒")
    ensures s > 0 <==> Units(s) != []
  {
    UptimeDecomposes(s);
    assert "天" != "小时" && "天" != "分钟" && "天" != "秒" && "小时" != "分钟" && "小时" != "秒" && "分钟" != "秒";
    var d := if Days(s) > 0 then [(Days(s), "天")] else [];
    var h := if Hours(s) > 0 then [(Hours(s), "小时")] else [];
    var m := if Minutes(s) > 0 then [(Minutes(s), "分钟")] else [];
    var dhm := d + h + m;
    assert Units(s) == if Secs(s) > 0 && dhm == [] then [(Secs(s), "秒")] else dhm;
    if Days(s) > 0 {
      assert Units(s)[0] == (Days(s), "天");
    }
    if Hours(s) > 0 {
      assert Units(s)[|d|] == (Hours(s), "小时");
    }
    if Minutes(s) > 0 {
      assert Units(s)[|d| + |h|] == (Minutes(s), "分钟");
    }
    assert s < 60 <==> Days(s) == 0 && Hours(s) == 0 && Minutes(s) == 0;
  }

  /** The parts add up to the uptime, rounded down to the minute once it
      reaches one. */
  lemma UptimeTotal(s: nat)
    ensures Total(Units(s)) == if s < 60 then s else s - Secs(s)
  {
    UptimeDecomposes(s);
    var d := if Days(s) > 0 then [(Days(s), "天")] else [];
    var h := if Hours(s) > 0 then [(Hours(s), "小时")] else [];
    var m := if Minutes(s) > 0 then [(Minutes(s), "分钟")] else [];
    TotalConcat(d, h);
    TotalConcat(d + h, m);
    assert Total(d) == Days(s) * 86400;
    assert Total(h) == Hours(s) * 3600;
    assert Total(m) == Minutes(s) * 60;
    assert s < 60 <==> Days(s) == 0 && Hours(s) == 0 && Minutes(s) == 0;
  }

  // ---------------------------------------------------------------- truncate

  /** `truncate`: the string itself when it fits, else a prefix of it followed
      by the suffix. */
  function Truncate(str: string, maxLength: int, suffix: string): (r: string)
    ensures |str| <= maxLength ==> r == str
    ensures |str| > maxLength >= |suffix| ==>
      |r| == maxLength && EndsWith(r, suffix) && r[..maxLength - |suffix|] == str[..maxLength - |suffix|]
    ensures |str| > maxLength && maxLength < |suffix| ==> r == suffix
  {
    if |str| <= maxLength then str
    else Substring(str, 0, maxLength - |suffix|) + suffix
  }

  /** A truncated string fits and is not truncated again. */
  lemma TruncateIdempotent(str: string, maxLength: int, suffix: string)
    requires maxLength >= |suffix|
    ensures Truncate(Truncate(str, maxLength, suffix), maxLength, suffix) == Truncate(str, maxLength, suffix)
  {
  }

  // ---------------------------------------------------------------- formatPlayerName

  /** The characters a Minecraft player name may hold: `[a-z0-9_]`. */
  predicate NameChar(c: char) {
    'a' <= c <= 'z' || '0' <= c <= '9' || c == '_'
  }

  /** `replace(/[^a-z0-9_]/g, "")`. */
  function KeepNameChars(s: string): (r: string)
    ensures |r| <= |s|
    ensures forall i :: 0 <= i < |r| ==> NameChar(r[i])
    decreases |s|
  {
    if s == [] then []
    else if NameChar(s[0]) then [s[0]] + KeepNameChars(s[1..])
    else KeepNameChars(s[1..])
  }

  /** A string of name characters keeps them all. */
  lemma {:induction false} KeepAllNameChars(s: string)
    requires forall i :: 0 <= i < |s| ==> NameChar(s[i])
    ensures KeepNameChars(s) == s
    decreases |s|
  {
    if s != [] {
      KeepAllNameChars(s[1..]);
      assert [s[0]] + s[1..] == s;
    }
  }

  /** Filtering keeps the order: it works piece by piece. */
  lemma {:induction false} KeepNameCharsConcat(a: string, b: string)
    ensures KeepNameChars(a + b) == KeepNameChars(a) + KeepNameChars(b)
    decreases |a|
  {
    if a == [] {
      assert a + b == b;
    } else {
      assert (a + b)[0] == a[0] && (a + b)[1..] == a[1..] + b;
      KeepNameCharsConcat(a[1..], b);
    }
  }

  const MaxNameLength := 16

  /** `formatPlayerName`: trimmed, lower-cased, stripped to `[a-z0-9_]` and
      cut to 16 characters. */
  function FormatPlayerName(name: string): (r: string)
    ensures |r| <= MaxNameLength
    ensures forall i :: 0 <= i < |r| ==> NameChar(r[i])
    ensures StartsWith(KeepNameChars(Lower(name)), r)
    ensures |r| == if |KeepNameChars(Lower(name))| < MaxNameLength then |KeepNameChars(Lower(name))| else MaxNameLength
  {
    var kept := KeepNameChars(Lower(Trim(name, IsJsSpace)));
    TrimKeepsNameChars(name);
    assert Substring(kept, 0, MaxNameLength) == kept[..if |kept| < MaxNameLength then |kept| else MaxNameLength];
    Substring(kept, 0, MaxNameLength)
  }

  /** Trimming first changes nothing the filter keeps: whitespace is never a
      name character. */
  lemma TrimKeepsNameChars(s: string)
    ensures KeepNameChars(Lower(Trim(s, IsJsSpace))) == KeepNameChars(Lower(s))
  {
    TrimEndKeeps(s);
    TrimStartKeeps(TrimEnd(s, IsJsSpace));
  }

  lemma TrimEndKeeps(s: string)
    ensures KeepNameChars(Lower(TrimEnd(s, IsJsSpace))) == KeepNameChars(Lower(s))
  {
    var e := TrimEnd(s, IsJsSpace);
    TrimEndPrefix(s, IsJsSpace);
    var back := s[|e|..];
    assert s == e + back;
    forall i | 0 <= i < |back| ensures IsJsSpace(back[i]) {
      assert back[i] == s[|e| + i];
    }
    KeepLowerConcat(e, back);
    SpacesKeepNothing(back);
  }

  lemma TrimStartKeeps(e: string)
    ensures KeepNameChars(Lower(TrimStart(e, IsJsSpace))) == KeepNameChars(Lower(e))
  {
    var t := TrimStart(e, IsJsSpace);
    TrimStartSuffix(e, IsJsSpace);
    var front := e[..|e| - |t|];
    assert e == front + t;
    forall i | 0 <= i < |front| ensures IsJsSpace(front[i]) {
      assert front[i] == e[i];
    }
    KeepLowerConcat(front, t);
    SpacesKeepNothing(front);
  }

  /** Lower-casing and filtering work piece by piece. */
  lemma KeepLowerConcat(a: string, b: string)
    ensures KeepNameChars(Lower(a + b)) == KeepNameChars(Lower(a)) + KeepNameChars(Lower(b))
  {
    assert Lower(a + b) == Lower(a) + Lower(b);
    KeepNameCharsConcat(Lower(a), Lower(b));
  }

  /** Whitespace lower-cases to itself and is filtered out. */
  lemma SpacesKeepNothing(s: string)
    requires forall i :: 0 <= i < |s| ==> IsJsSpace(s[i])
    ensures KeepNameChars(Lower(s)) == []
  {
    NoneKept(Lower(s));
  }

  /** A string of no name characters filters to nothing. */
  lemma {:induction false} NoneKept(s: string)
    requires forall i :: 0 <= i < |s| ==> !NameChar(s[i])
    ensures KeepNameChars(s) == []
    decreases |s|
  {
    if s != [] {
      NoneKept(s[1..]);
    }
  }

  /** Formatting a formatted name gives it back. */
  lemma FormatPlayerNameIdempotent(name: string)
    ensures FormatPlayerName(FormatPlayerName(name)) == FormatPlayerName(name)
  {
    ValidNameFixed(FormatPlayerName(name));
  }

  /** A valid name is its own formatting. */
  lemma ValidNameFixed(r: string)
    requires |r| <= MaxNameLength && forall i :: 0 <= i < |r| ==> NameChar(r[i])
    ensures FormatPlayerName(r) == r
  {
    TrimOfTrimmed(r, IsJsSpace);
    LowerFixed(r);
    KeepAllNameChars(r);
    assert Substring(r, 0, MaxNameLength) == r[0..|r|];
  }

  /** Name characters have no upper case. */
  lemma LowerFixed(r: string)
    requires forall i :: 0 <= i < |r| ==> NameChar(r[i])
    ensures Lower(r) == r
  {
    forall i | 0 <= i < |r| ensures Lower(r)[i] == r[i] {
      assert NameChar(r[i]);
    }
  }

  // ---------------------------------------------------------------- formatPort

  /** The argument of `formatPort`: a number or a string. */
  datatype PortInput = PortNumber(n: int) | PortString(s: string)

  const DefaultPort := "25565"

  /** The longest prefix of decimal digits. */
  function DigitPrefix(s: string): (z: string)
    ensures |z| <= |s| && z == s[..|z|] && AllDigits(z)
    ensures |z| == |s| || !IsDigit(s[|z|])
    decreases |s|
  {
    if s != [] && IsDigit(s[0]) then
      var z := [s[0]] + DigitPrefix(s[1..]);
      assert s[..|z|] == [s[0]] + s[1..][..|z| - 1];
      z
    else []
  }

  lemma {:induction false} DigitPrefixAll(s: string)
    requires AllDigits(s)
    ensures DigitPrefix(s) == s
    decreases |s|
  {
    if s != [] {
      DigitPrefixAll(s[1..]);
      assert [s[0]] + s[1..] == s;
    }
  }

  /** `parseInt(s, 10)`: leading whitespace skipped, an optional sign, then
      the longest run of digits; `None` (NaN) when there is no digit. */
  function ParseInt(s: string): (r: Option<int>)
    ensures r.Some? ==> exists k :: 0 <= k < |s| && IsDigit(s[k])
  {
    var t := TrimStart(s, IsJsSpace);
    var negative := t != [] && t[0] == '-';
    var u := if t != [] && (t[0] == '+' || t[0] == '-') then t[1..] else t;
    var z := DigitPrefix(u);
    TrimStartSuffix(s, IsJsSpace);
    if z == [] then None
    else
      assert u[0] == z[0];
      assert IsDigit(s[|s| - |u|]);
      Some(if negative then -(DigitsValue(z) as int) else DigitsValue(z))
  }

  /** Parsing a rendered natural number gives it back. */
  lemma ParseIntRendered(n: nat)
    ensures ParseInt(NatToString(n)) == Some(n)
  {
    var s := NatToString(n);
    assert IsDigit(s[0]);
    assert TrimStart(s, IsJsSpace) == s;
    DigitPrefixAll(s);
  }

  /** The digit prefix of a run of digits followed by a non-digit is that run. */
  lemma DigitPrefixStops(d: string, rest: string)
    requires AllDigits(d) && (rest == [] || !IsDigit(rest[0]))
    ensures DigitPrefix(d + rest) == d
  {
    assert (d + rest)[..|d|] == d;
  }

  /** Leading whitespace alone trims to nothing. */
  lemma TrimStartAllSpace(ws: string)
    requires forall i :: 0 <= i < |ws| ==> IsJsSpace(ws[i])
    ensures TrimStart(ws, IsJsSpace) == []
  {
    TrimStartSuffix(ws, IsJsSpace);
  }

  /** Leading whitespace does not change what `parseInt` reads. */
  lemma ParseIntAfterSpace(ws: string, t: string)
    requires forall i :: 0 <= i < |ws| ==> IsJsSpace(ws[i])
    requires t == [] || !IsJsSpace(t[0])
    ensures ParseInt(ws + t) == ParseInt(t)
  {
    TrimStartAllSpace(ws);
    if t == [] {
      assert ws + t == ws;
    } else {
      assert ws + t == ws + [t[0]] + t[1..];
      TrimStartPast(ws, t[0], t[1..], IsJsSpace);
      assert [t[0]] + t[1..] == t;
      assert TrimStart(t, IsJsSpace) == t;
    }
  }

  /** Without leading whitespace, `parseInt` reads the digit run after the
      optional sign, and negates it for '-'. */
  lemma ParseIntAt(t: string, d: string)
    requires t != [] && !IsJsSpace(t[0])
    requires d != [] && DigitPrefix(if t[0] == '+' || t[0] == '-' then t[1..] else t) == d
    ensures ParseInt(t) == Some(if t[0] == '-' then -(DigitsValue(d) as int) else DigitsValue(d))
  {
    assert TrimStart(t, IsJsSpace) == t;
  }

  /** `parseInt` skips the leading whitespace, reads an optional sign and the
      digits after it, and stops at the first non-digit. */
  lemma ParseIntReads(ws: string, sign: string, d: string, rest: string)
    requires forall i :: 0 <= i < |ws| ==> IsJsSpace(ws[i])
    requires sign == "" || sign == "+" || sign == "-"
    requires d != [] && AllDigits(d)
    requires rest == [] || !IsDigit(rest[0])
    ensures ParseInt(ws + sign + d + rest) == Some(if sign == "-" then -(DigitsValue(d) as int) else DigitsValue(d))
  {
    var t := sign + d + rest;
    assert ws + sign + d + rest == ws + t;
    if sign == "" {
      assert t == d + rest;
      assert t[0] == d[0] && IsDigit(d[0]);
    } else {
      assert t[1..] == d + rest;
      assert t[0] == sign[0];
    }
    assert !IsJsSpace(t[0]);
    DigitPrefixStops(d, rest);
    ParseIntAfterSpace(ws, t);
    ParseIntAt(t, d);
  }

  /** `parseInt` gives NaN when no digit follows the whitespace and the
      optional sign. */
  lemma ParseIntNoDigit(ws: string, t: string)
    requires forall i :: 0 <= i < |ws| ==> IsJsSpace(ws[i])
    requires t == [] || (!IsJsSpace(t[0]) && !IsDigit(t[0]))
    requires |t| >= 2 && (t[0] == '+' || t[0] == '-') ==> !IsDigit(t[1])
    ensures ParseInt(ws + t) == None
  {
    ParseIntAfterSpace(ws, t);
  }

  /** "25565" is the decimal rendering of 25565. */
  lemma DefaultPortDigits()
    ensures AllDigits(DefaultPort) && DigitsValue(DefaultPort) == 25565
  {
    assert DefaultPort[..4] == "2556" && "2556"[..3] == "255" && "255"[..2] == "25" && "25"[..1] == "2";
    assert DigitsValue("2") == 2;
    assert DigitsValue("25") == 25;
    assert DigitsValue("255") == 255;
    assert DigitsValue("2556") == 2556;
  }

  /** The number `formatPort` checks. */
  function PortValue(port: PortInput): Option<int> {
    match port
    case PortNumber(n) => Some(n)
    case PortString(s) => ParseInt(s)
  }

  predicate InPortRange(n: int) {
    1 <= n <= 65535
  }

  /** `formatPort`: the port in decimal when it is a number in 1..65535,
      otherwise "25565". Either way the answer is the decimal rendering,
      without leading zeros, of a valid port. */
  function FormatPort(port: PortInput): (r: string)
    ensures r != [] && AllDigits(r) && InPortRange(DigitsValue(r)) && (|r| == 1 || r[0] != '0')
    ensures PortValue(port).Some? && InPortRange(PortValue(port).value) ==> DigitsValue(r) == PortValue(port).value
    ensures PortValue(port).None? || !InPortRange(PortValue(port).value) ==> r == DefaultPort
  {
    var num := PortValue(port);
    if num.None? || num.value < 1 || num.value > 65535 then
      DefaultPortDigits();
      DefaultPort
    else IntToString(num.value)
  }

  /** A formatted port, formatted again as a string, stays the same. */
  lemma FormatPortIdempotent(port: PortInput)
    ensures FormatPort(PortString(FormatPort(port))) == FormatPort(port)
  {
    var r := FormatPort(port);
    var v: nat := DigitsValue(r);
    assert r == NatToString(v) by {
      RenderingUnique(r, NatToString(v));
    }
    ParseIntRendered(v);
  }

  /** Two digit strings without leading zeros that denote the same number
      are equal. */
  lemma {:induction false} RenderingUnique(a: string, b: string)
    requires a != [] && AllDigits(a) && (|a| == 1 || a[0] != '0')
    requires b != [] && AllDigits(b) && (|b| == 1 || b[0] != '0')
    requires DigitsValue(a) == DigitsValue(b)
    ensures a == b
    decreases |a| + |b|
  {
    var la, lb := a[..|a| - 1], b[..|b| - 1];
    var da, db := a[|a| - 1] as int - '0' as int, b[|b| - 1] as int - '0' as int;
    assert DigitsValue(a) == DigitsValue(la) * 10 + da;
    assert DigitsValue(b) == DigitsValue(lb) * 10 + db;
    assert da == db && DigitsValue(la) == DigitsValue(lb);
    if |a| == 1 || |b| == 1 {
      if |a| > 1 {
        LeadingDigitPositive(a);
      }
      if |b| > 1 {
        LeadingDigitPositive(b);
      }
      assert |a| == 1 && |b| == 1;
      assert a == [a[0]] && b == [b[0]];
    } else {
      assert la[0] == a[0] && lb[0] == b[0];
      RenderingUnique(la, lb);
      assert a == la + [a[|a| - 1]] && b == lb + [b[|b| - 1]];
    }
  }

  /** A digit string of two or more digits that does not start with '0'
      denotes at least 10. */
  lemma {:induction false} LeadingDigitPositive(s: string)
    requires |s| >= 2 && AllDigits(s) && s[0] != '0'
    ensures DigitsValue(s) >= 10
    decreases |s|
  {
    var init := s[..|s| - 1];
    assert init[0] == s[0];
    if |init| >= 2 {
      LeadingDigitPositive(init);
    } else {
      assert init == [s[0]];
      assert DigitsValue(init) == DigitsValue([]) * 10 + (s[0] as int - '0' as int);
    }
  }

  // ---------------------------------------------------------------- formatJavaVersion

  /** The if/else-if chain of `formatJavaVersion`. */
  function SimplifyVendor(vendor: string): (r: string) {
    if Contains(vendor, "Oracle") || Contains(vendor, "Sun") then "Oracle"
    else if Contains(vendor, "Temurin") || Contains(vendor, "Adopt") then "Eclipse Temurin"
    else if Contains(vendor, "Amazon") then "Amazon Corretto"
    else if Contains(vendor, "Microsoft") then "Microsoft"
    else if Contains(vendor, "Zulu") || Contains(vendor, "Azul") then "Azul Zulu"
    else if Contains(vendor, "Liberica") || Contains(vendor, "BellSoft") then "Liberica"
    else vendor
  }

  /** The same rules as a table: the substrings that select each name. */
  const VendorRules: seq<(seq<string>, string)> := [
    (["Oracle", "Sun"], "Oracle"),
    (["Temurin", "Adopt"], "Eclipse Temurin"),
    (["Amazon"], "Amazon Corretto"),
    (["Microsoft"], "Microsoft"),
    (["Zulu", "Azul"], "Azul Zulu"),
    (["Liberica", "BellSoft"], "Liberica")
  ]

  /** Some marker occurs in `vendor`. */
  predicate AnyContains(vendor: string, markers: seq<string>)
    decreases |markers|
  {
    markers != [] && (Contains(vendor, markers[0]) || AnyContains(vendor, markers[1..]))
  }

  /** The index of the first rule with a marker in `vendor`. */
  function FirstMatch(rules: seq<(seq<string>, string)>, vendor: string): (r: Option<nat>)
    ensures r.Some? ==> (r.value < |rules| && AnyContains(vendor, rules[r.value].0)
      && forall j :: 0 <= j < r.value ==> !AnyContains(vendor, rules[j].0))
    ensures r.None? ==> forall j :: 0 <= j < |rules| ==> !AnyContains(vendor, rules[j].0)
    decreases |rules|
  {
    if rules == [] then None
    else if AnyContains(vendor, rules[0].0) then Some(0)
    else
      match FirstMatch(rules[1..], vendor)
      case None => None
      case Some(k) => Some(k + 1)
  }

  /** The vendor becomes the name of the first rule, in the listed order,
      with a marker in it; with no such rule it is kept. */
  lemma SimplifyVendorFirstMatch(vendor: string)
    ensures FirstMatch(VendorRules, vendor).None? ==> SimplifyVendor(vendor) == vendor
    ensures FirstMatch(VendorRules, vendor).Some? ==>
      SimplifyVendor(vendor) == VendorRules[FirstMatch(VendorRules, vendor).value].1
  {
    var rules := VendorRules;
    AnyContainsPair(vendor, "Oracle", "Sun");
    AnyContainsPair(vendor, "Temurin", "Adopt");
    AnyContainsOne(vendor, "Amazon");
    AnyContainsOne(vendor, "Microsoft");
    AnyContainsPair(vendor, "Zulu", "Azul");
    AnyContainsPair(vendor, "Liberica", "BellSoft");
    var fm := FirstMatch(rules, vendor);
    if fm.Some? {
      var k := fm.value;
      assert k == 0 || k == 1 || k == 2 || k == 3 || k == 4 || k == 5;
    }
  }

  lemma AnyContainsOne(vendor: string, a: string)
    ensures AnyContains(vendor, [a]) <==> Contains(vendor, a)
  {
    assert [a][1..] == [];
  }

  lemma AnyContainsPair(vendor: string, a: string, b: string)
    ensures AnyContains(vendor, [a, b]) <==> Contains(vendor, a) || Contains(vendor, b)
  {
    assert [a, b][1..] == [b];
    AnyContainsOne(vendor, b);
  }

  /** The word-size label. */
  function Arch(is64bit: bool): string {
    if is64bit then "64-bit" else "32-bit"
  }

  /** `formatJavaVersion`: "Java", the version, the simplified vendor and the
      word size, separated by spaces. */
  function FormatJavaVersion(version: int, vendor: string, is64bit: bool): (r: string)
    ensures var head := "Java " + IntToString(version) + " ";
      var tail := " " + Arch(is64bit);
      |r| == |head| + |SimplifyVendor(vendor)| + |tail|
      && StartsWith(r, head) && EndsWith(r, tail) && r[|head|..|r| - |tail|] == SimplifyVendor(vendor)
  {
    var head := "Java " + IntToString(version) + " ";
    var v := SimplifyVendor(vendor);
    var r := head + v + " " + Arch(is64bit);
    assert r == head + v + (" " + Arch(is64bit));
    r
  }
}
