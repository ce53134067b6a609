/**
 * Character and string primitives that the Rust and TypeScript code relies on:
 * whitespace as each language defines it, trimming, splitting, searching,
 * ASCII case folding, decimal rendering and Rust's `u64` parser.
 * Strings are sequences of Unicode scalar values.
 */
module Strings {
  import opened Wrappers

  // ---------------------------------------------------------------- whitespace

  /** Unicode White_Space: what Rust's `char::is_whitespace` (and so `trim`,
      `split_whitespace`) treats as whitespace. */
  predicate IsRustSpace(c: char) {
    || ('\t' <= c <= '\r') || c == ' '
    || c == '\U{0085}' || c == '\U{00A0}' || c == '\U{1680}'
    || ('\U{2000}' <= c <= '\U{200A}')
    || c == '\U{2028}' || c == '\U{2029}' || c == '\U{202F}' || c == '\U{205F}' || c == '\U{3000}'
  }

  /** What JavaScript's `String.prototype.trim` removes: White_Space except
      U+0085, plus the byte-order mark U+FEFF. */
  predicate IsJsSpace(c: char) {
    (IsRustSpace(c) && c != '\U{0085}') || c == '\U{FEFF}'
  }

  /** `s` with its leading characters satisfying `sp` removed. */
  function TrimStart(s: string, sp: char -> bool): (r: string)
    ensures |r| <= |s|
    ensures r == [] || !sp(r[0])
    decreases |s|
  {
    if s != [] && sp(s[0]) then TrimStart(s[1..], sp) else s
  }

  /** `TrimStart` removes a prefix of whitespace. */
  lemma {:induction false} TrimStartSuffix(s: string, sp: char -> bool)
    ensures TrimStart(s, sp) == s[|s| - |TrimStart(s, sp)|..]
    ensures forall i :: 0 <= i < |s| - |TrimStart(s, sp)| ==> sp(s[i])
    decreases |s|
  {
    if s != [] && sp(s[0]) {
      TrimStartSuffix(s[1..], sp);
      assert forall i :: 1 <= i < |s| ==> s[i] == s[1..][i - 1];
    }
  }

  /** `s` with its trailing characters satisfying `sp` removed. */
  function TrimEnd(s: string, sp: char -> bool): (r: string)
    ensures |r| <= |s|
    ensures r == [] || !sp(r[|r| - 1])
    decreases |s|
  {
    if s != [] && sp(s[|s| - 1]) then TrimEnd(s[..|s| - 1], sp) else s
  }

  /** `TrimEnd` removes a suffix of whitespace. */
  lemma {:induction false} TrimEndPrefix(s: string, sp: char -> bool)
    ensures TrimEnd(s, sp) == s[..|TrimEnd(s, sp)|]
    ensures forall i :: |TrimEnd(s, sp)| <= i < |s| ==> sp(s[i])
    decreases |s|
  {
    if s != [] && sp(s[|s| - 1]) {
      TrimEndPrefix(s[..|s| - 1], sp);
    }
  }

  /** Both ends trimmed (`str::trim`, `String.prototype.trim`). */
  function Trim(s: string, sp: char -> bool): (r: string)
    ensures |r| <= |s|
    ensures r == [] || (!sp(r[0]) && !sp(r[|r| - 1]))
  {
    TrimStartSuffix(TrimEnd(s, sp), sp);
    TrimStart(TrimEnd(s, sp), sp)
  }

  /** A string whose ends are not whitespace is its own trim. */
  lemma TrimOfTrimmed(s: string, sp: char -> bool)
    requires s == [] || (!sp(s[0]) && !sp(s[|s| - 1]))
    ensures Trim(s, sp) == s
  {
  }

  /** Trimming is idempotent. */
  lemma TrimIdempotent(s: string, sp: char -> bool)
    ensures Trim(Trim(s, sp), sp) == Trim(s, sp)
  {
    TrimOfTrimmed(Trim(s, sp), sp);
  }

  /** A trailing whitespace character does not change the trim. */
  lemma TrimDropsTrailingSpace(s: string, c: char, sp: char -> bool)
    requires sp(c)
    ensures Trim(s + [c], sp) == Trim(s, sp)
  {
    assert (s + [c])[..|s + [c]| - 1] == s;
  }

  /** Trimming the front stops at the first non-whitespace character. */
  lemma {:induction false} TrimStartPast(x: string, c: char, y: string, sp: char -> bool)
    requires !sp(c)
    ensures TrimStart(x + [c] + y, sp) == TrimStart(x, sp) + [c] + y
    decreases |x|
  {
    var s := x + [c] + y;
    if x == [] {
      assert s == [c] + y && s[0] == c;
    } else {
      assert s[0] == x[0];
      if sp(x[0]) {
        assert s[1..] == x[1..] + [c] + y;
        TrimStartPast(x[1..], c, y, sp);
        assert TrimStart(s, sp) == TrimStart(s[1..], sp);
      }
    }
  }

  /** Trimming the back stops at the last non-whitespace character. */
  lemma {:induction false} TrimEndPast(x: string, c: char, y: string, sp: char -> bool)
    requires !sp(c)
    ensures TrimEnd(x + [c] + y, sp) == x + [c] + TrimEnd(y, sp)
    decreases |y|
  {
    var s := x + [c] + y;
    if y != [] && sp(y[|y| - 1]) {
      assert s[..|s| - 1] == x + [c] + y[..|y| - 1];
      TrimEndPast(x, c, y[..|y| - 1], sp);
    } else if y == [] {
      assert s == x + [c] + [];
      assert s[|s| - 1] == c;
    } else {
      assert s[|s| - 1] == y[|y| - 1];
    }
  }

  /** Both trims around a non-whitespace character. */
  lemma TrimAround(x: string, c: char, y: string, sp: char -> bool)
    requires !sp(c)
    ensures Trim(x + [c] + y, sp) == TrimStart(x, sp) + [c] + TrimEnd(y, sp)
  {
    TrimEndPast(x, c, y, sp);
    TrimStartPast(x, c, TrimEnd(y, sp), sp);
  }

  // ---------------------------------------------------------------- searching

  predicate StartsWith(s: string, prefix: string) {
    |prefix| <= |s| && s[..|prefix|] == prefix
  }

  predicate EndsWith(s: string, suffix: string) {
    |suffix| <= |s| && s[|s| - |suffix|..] == suffix
  }

  /** `sub` occurs in `s` starting at index `j`. */
  predicate OccursAt(s: string, sub: string, j: int) {
    0 <= j && j + |sub| <= |s| && s[j..j + |sub|] == sub
  }

  /** The first index at which `sub` occurs in `s` (`indexOf`, `find`). */
  function IndexOf(s: string, sub: string): (r: Option<nat>)
    ensures r.Some? ==> OccursAt(s, sub, r.value) && forall j :: 0 <= j < r.value ==> !OccursAt(s, sub, j)
    ensures r.None? ==> forall j :: !OccursAt(s, sub, j)
    decreases |s|
  {
    if |sub| > |s| then None
    else if s[..|sub|] == sub then Some(0)
    else
      match IndexOf(s[1..], sub)
      case None =>
        assert forall j :: 1 <= j ==> OccursAt(s, sub, j) == OccursAt(s[1..], sub, j - 1);
        None
      case Some(k) =>
        assert forall j :: 1 <= j ==> OccursAt(s, sub, j) == OccursAt(s[1..], sub, j - 1);
        Some(k + 1)
  }

  /** `sub` occurs somewhere in `s` (`includes`, `contains`). */
  predicate Contains(s: string, sub: string) {
    IndexOf(s, sub).Some?
  }

  /** The first index of character `c` in `s`. */
  function FirstIndexOf(s: string, c: char): (i: nat)
    requires c in s
    ensures i < |s| && s[i] == c && c !in s[..i]
  {
    if s[0] == c then 0 else FirstIndexOf(s[1..], c) + 1
  }

  // ---------------------------------------------------------------- splitting

  /** `s.split(sep)` with a one-character separator (Rust and JavaScript agree):
      never empty; empty pieces are kept. */
  function Split(s: string, sep: char): (r: seq<string>)
    ensures |r| >= 1
    ensures forall i :: 0 <= i < |r| ==> sep !in r[i]
    decreases |s|
  {
    if sep in s then
      var i := FirstIndexOf(s, sep);
      [s[..i]] + Split(s[i + 1..], sep)
    else [s]
  }

  /** `str::split_once`: the text before and after the first `c`. */
  function SplitOnce(s: string, c: char): (r: Option<(string, string)>)
    ensures r.None? <==> c !in s
    ensures r.Some? ==> s == r.value.0 + [c] + r.value.1 && c !in r.value.0
  {
    if c in s then
      var i := FirstIndexOf(s, c);
      assert s == s[..i] + [c] + s[i + 1..];
      Some((s[..i], s[i + 1..]))
    else None
  }

  /** `split_once` cuts at the first occurrence. */
  lemma SplitOnceAt(a: string, c: char, b: string)
    requires c !in a
    ensures SplitOnce(a + [c] + b, c) == Some((a, b))
  {
    var s := a + [c] + b;
    assert s[|a|] == c;
    var i := FirstIndexOf(s, c);
    assert forall k :: 0 <= k < |a| ==> s[k] == a[k];
    assert forall k {:trigger s[k]} :: 0 <= k < i ==> s[..i][k] == s[k];
    assert s[..|a|] == a && s[|a| + 1..] == b;
  }

  /** The pieces glued back together with `sep` between neighbours. */
  function Join(parts: seq<string>, sep: string): string {
    if parts == [] then ""
    else if |parts| == 1 then parts[0]
    else parts[0] + sep + Join(parts[1..], sep)
  }

  /** Joining a non-empty tail after a first piece. */
  lemma JoinCons(a: string, rest: seq<string>, sep: string)
    requires rest != []
    ensures Join([a] + rest, sep) == a + sep + Join(rest, sep)
  {
    assert ([a] + rest)[1..] == rest;
  }

  /** Splitting loses nothing: joining the pieces with the separator gives `s` back. */
  lemma {:induction false} JoinSplit(s: string, sep: char)
    ensures Join(Split(s, sep), [sep]) == s
    decreases |s|
  {
    if sep in s {
      var i := FirstIndexOf(s, sep);
      var head, tail := s[..i], s[i + 1..];
      var rest := Split(tail, sep);
      assert Split(s, sep) == [head] + rest;
      JoinSplit(tail, sep);
      JoinCons(head, rest, [sep]);
      Around(s, i);
    }
  }

  /** A text is the part before position `i`, the character there, and the rest. */
  lemma Around(s: string, i: nat)
    requires i < |s|
    ensures s == s[..i] + [s[i]] + s[i + 1..]
  {
    assert s[..i] + s[i..] == s;
    assert s[i..] == [s[i]] + s[i + 1..];
  }

  /** A separator that does not occur leaves the text whole. */
  lemma SplitAbsent(s: string, sep: char)
    requires sep !in s
    ensures Split(s, sep) == [s]
  {
  }

  /** The first separator ends the first piece. */
  lemma SplitAt(a: string, sep: char, b: string)
    requires sep !in a
    ensures Split(a + [sep] + b, sep) == [a] + Split(b, sep)
  {
    var s := a + [sep] + b;
    assert s[|a|] == sep;
    assert s[..|a|] == a;
    assert s[|a| + 1..] == b;
  }

  /** Splitting undoes joining when no piece contains the separator. */
  lemma {:induction false} SplitJoin(parts: seq<string>, sep: char)
    requires parts != []
    requires forall i :: 0 <= i < |parts| ==> sep !in parts[i]
    ensures Split(Join(parts, [sep]), sep) == parts
  {
    if |parts| == 1 {
      SplitAbsent(parts[0], sep);
    } else {
      var rest := parts[1..];
      assert forall i :: 0 <= i < |rest| ==> sep !in rest[i] by {
        forall i | 0 <= i < |rest| ensures sep !in rest[i] { assert rest[i] == parts[i + 1]; }
      }
      SplitJoin(rest, sep);
      assert sep !in parts[0];
      SplitAt(parts[0], sep, Join(rest, [sep]));
      assert parts == [parts[0]] + rest;
    }
  }

  /** A character absent from every piece and from the separator is absent
      from the joined text. */
  lemma {:induction false} JoinExcludes(parts: seq<string>, sep: string, c: char)
    requires c !in sep
    requires forall i :: 0 <= i < |parts| ==> c !in parts[i]
    ensures c !in Join(parts, sep)
  {
    if |parts| > 1 {
      var rest := parts[1..];
      assert forall i :: 0 <= i < |rest| ==> c !in rest[i] by {
        forall i | 0 <= i < |rest| ensures c !in rest[i] { assert rest[i] == parts[i + 1]; }
      }
      JoinExcludes(rest, sep, c);
      assert c !in parts[0];
    }
  }

  /** Non-empty pieces joined: the text ends with the last piece. */
  lemma {:induction false} JoinEndsWithLast(parts: seq<string>, sep: string)
    requires parts != []
    ensures EndsWith(Join(parts, sep), parts[|parts| - 1])
  {
    if |parts| > 1 {
      JoinEndsWithLast(parts[1..], sep);
      var j := Join(parts[1..], sep);
      assert Join(parts, sep) == parts[0] + sep + j;
    }
  }

  /** The longest prefix of `s` free of Rust whitespace. */
  function TakeWord(s: string): (w: string)
    ensures |w| <= |s| && w == s[..|w|]
    ensures forall i :: 0 <= i < |w| ==> !IsRustSpace(w[i])
    ensures |w| == |s| || IsRustSpace(s[|w|])
    ensures s != [] && !IsRustSpace(s[0]) ==> w != []
  {
    if s == [] || IsRustSpace(s[0]) then [] else [s[0]] + TakeWord(s[1..])
  }

  /** A whitespace-free prefix ended by whitespace (or the end) is the first word. */
  lemma {:induction false} TakeWordPrefix(w: string, tail: string)
    requires forall i :: 0 <= i < |w| ==> !IsRustSpace(w[i])
    requires tail == [] || IsRustSpace(tail[0])
    ensures TakeWord(w + tail) == w
  {
    if w != [] {
      assert (w + tail)[1..] == w[1..] + tail;
      TakeWordPrefix(w[1..], tail);
    } else {
      assert w + tail == tail;
    }
  }

  /** `w` is non-empty and no character of it is Rust whitespace. */
  predicate IsWord(w: string) {
    w != [] && forall i :: 0 <= i < |w| ==> !IsRustSpace(w[i])
  }

  /** `str::split_whitespace`: the maximal whitespace-free runs, in order. */
  function SplitWhitespace(s: string): seq<string>
    decreases |s|
  {
    var t := TrimStart(s, IsRustSpace);
    if t == [] then []
    else
      var w := TakeWord(t);
      [w] + SplitWhitespace(t[|w|..])
  }

  /** Every token is a non-empty run free of whitespace. */
  lemma {:induction false} SplitWhitespaceWords(s: string)
    ensures forall i :: 0 <= i < |SplitWhitespace(s)| ==> IsWord(SplitWhitespace(s)[i])
    decreases |s|
  {
    var t := TrimStart(s, IsRustSpace);
    if t != [] {
      var w := TakeWord(t);
      var rest := SplitWhitespace(t[|w|..]);
      SplitWhitespaceWords(t[|w|..]);
      var r := [w] + rest;
      assert SplitWhitespace(s) == r;
      forall i | 0 <= i < |r| ensures IsWord(r[i]) {
        if i == 0 {
          assert r[0] == w;
        } else {
          assert r[i] == rest[i - 1];
        }
      }
    }
  }

  /** Words joined by single spaces split back into the same words. */
  lemma {:induction false} SplitWhitespaceJoin(words: seq<string>)
    requires forall i :: 0 <= i < |words| ==> IsWord(words[i])
    ensures SplitWhitespace(Join(words, " ")) == words
  {
    if |words| == 1 {
      assert Join(words, " ") == words[0];
      SingleWord(words[0]);
    } else if |words| > 1 {
      var tail := words[1..];
      AllWordsTail(words);
      SplitWhitespaceJoin(tail);
      WordThenWords(words[0], tail);
      assert words == [words[0]] + tail;
    }
  }

  /** Words joined by single spaces begin with the first word and do not end in
      whitespace, so trimming leaves them alone. */
  lemma {:induction false} JoinWordsTrimmed(words: seq<string>)
    requires words != []
    requires forall i :: 0 <= i < |words| ==> IsWord(words[i])
    ensures IsWord(words[0]) && Join(words, " ") != [] && Join(words, " ")[0] == words[0][0]
    ensures !IsRustSpace(Join(words, " ")[|Join(words, " ")| - 1])
    ensures Trim(Join(words, " "), IsRustSpace) == Join(words, " ")
  {
    var j := Join(words, " ");
    if |words| > 1 {
      AllWordsTail(words);
      JoinWordsTrimmed(words[1..]);
      assert j == words[0] + " " + Join(words[1..], " ");
    } else {
      assert j == words[0];
    }
    assert IsWord(words[0]);
    TrimOfTrimmed(j, IsRustSpace);
  }

  /** Dropping the first of a list of words leaves a list of words. */
  lemma AllWordsTail(words: seq<string>)
    requires words != []
    requires forall i :: 0 <= i < |words| ==> IsWord(words[i])
    ensures forall i :: 0 <= i < |words| - 1 ==> IsWord(words[1..][i])
  {
    forall i | 0 <= i < |words| - 1 ensures IsWord(words[1..][i]) {
      assert words[1..][i] == words[i + 1];
    }
  }

  /** A single word splits into itself. */
  lemma SingleWord(w: string)
    requires IsWord(w)
    ensures SplitWhitespace(w) == [w]
  {
    WordIsOneToken(w, "");
    assert w + "" == w;
  }

  /** A word, a space and more text: the word, then the words of the text. */
  lemma WordThenWords(w: string, tail: seq<string>)
    requires IsWord(w) && tail != []
    ensures SplitWhitespace(Join([w] + tail, " ")) == [w] + SplitWhitespace(Join(tail, " "))
  {
    var rest := Join(tail, " ");
    var sp := " " + rest;
    JoinCons(w, tail, " ");
    assert Join([w] + tail, " ") == w + sp;
    assert sp[0] == ' ';
    WordIsOneToken(w, sp);
    SpaceThenSplit(rest);
  }

  /** A leading space does not change the words. */
  lemma SpaceThenSplit(s: string)
    ensures SplitWhitespace(" " + s) == SplitWhitespace(s)
  {
    assert (" " + s)[1..] == s;
    assert TrimStart(" " + s, IsRustSpace) == TrimStart(s, IsRustSpace);
  }

  /** A word followed by nothing or by whitespace is the first token. */
  lemma WordIsOneToken(w: string, tail: string)
    requires IsWord(w)
    requires tail == [] || IsRustSpace(tail[0])
    ensures SplitWhitespace(w + tail) == [w] + SplitWhitespace(tail)
  {
    var s := w + tail;
    assert TrimStart(s, IsRustSpace) == s;
    TakeWordPrefix(w, tail);
    assert s[|w|..] == tail;
  }

  // ---------------------------------------------------------------- replacing

  /** Rust's `str::replace` for a non-empty pattern: every non-overlapping
      occurrence, found left to right, is replaced by `v`. */
  function Replace(s: string, pat: string, v: string): string
    requires pat != []
    decreases |s|
  {
    if |s| < |pat| then s
    else if s[..|pat|] == pat then v + Replace(s[|pat|..], pat, v)
    else [s[0]] + Replace(s[1..], pat, v)
  }

  /** Text in which the pattern does not occur is left unchanged. */
  lemma {:induction false} ReplaceAbsent(s: string, pat: string, v: string)
    requires pat != []
    requires IndexOf(s, pat).None?
    ensures Replace(s, pat, v) == s
    decreases |s|
  {
    if |s| >= |pat| {
      assert !OccursAt(s, pat, 0);
      assert IndexOf(s[1..], pat).None? by {
        forall j ensures !OccursAt(s[1..], pat, j) {
          if 0 <= j && j + |pat| <= |s| - 1 {
            assert s[1..][j..j + |pat|] == s[j + 1..j + 1 + |pat|];
          }
          assert !OccursAt(s, pat, j + 1);
        }
      }
      ReplaceAbsent(s[1..], pat, v);
    }
  }

  /** Text that is exactly the pattern becomes exactly the replacement. */
  lemma ReplaceWhole(pat: string, v: string)
    requires pat != []
    ensures Replace(pat, pat, v) == v
  {
    assert pat[|pat|..] == [];
  }

  // ---------------------------------------------------------------- case

  /** `to_ascii_lowercase` / `toLowerCase` restricted to ASCII letters. */
  function LowerChar(c: char): char {
    if 'A' <= c <= 'Z' then (c as int + 32) as char else c
  }

  function Lower(s: string): (r: string)
    ensures |r| == |s|
    ensures forall i :: 0 <= i < |s| ==> r[i] == LowerChar(s[i])
  {
    seq(|s|, i requires 0 <= i < |s| => LowerChar(s[i]))
  }

  /** Lower-casing twice is lower-casing once. */
  lemma LowerIdempotent(s: string)
    ensures Lower(Lower(s)) == Lower(s)
  {
  }

  /** Rust's `eq_ignore_ascii_case`. */
  predicate EqualsIgnoreAsciiCase(a: string, b: string) {
    Lower(a) == Lower(b)
  }

  // ---------------------------------------------------------------- numbers

  const U64_MAX: nat := 0xFFFF_FFFF_FFFF_FFFF

  predicate IsDigit(c: char) {
    '0' <= c <= '9'
  }

  predicate AllDigits(s: string) {
    forall i :: 0 <= i < |s| ==> IsDigit(s[i])
  }

  function DigitChar(d: nat): (c: char)
    requires d < 10
    ensures IsDigit(c)
  {
    (d + '0' as int) as char
  }

  /** The number a string of decimal digits denotes (leading zeros allowed). */
  function DigitsValue(s: string): nat
    requires AllDigits(s)
    decreases |s|
  {
    if s == [] then 0 else DigitsValue(s[..|s| - 1]) * 10 + (s[|s| - 1] as int - '0' as int)
  }

  /** Decimal rendering of a natural number, without leading zeros. */
  function NatToString(n: nat): (r: string)
    ensures r != [] && AllDigits(r) && DigitsValue(r) == n
    ensures |r| == 1 || r[0] != '0'
    decreases n
  {
    if n < 10 then [DigitChar(n)]
    else
      var r := NatToString(n / 10) + [DigitChar(n % 10)];
      assert r[..|r| - 1] == NatToString(n / 10);
      r
  }

  /** Decimal rendering of an integer: `format!("{}")`, `String(n)`. */
  function IntToString(i: int): string {
    if i < 0 then "-" + NatToString(-i) else NatToString(i)
  }

  /** Rust's `str::parse::<u64>()`: an optional `+`, then at least one ASCII
      digit and nothing else; values above 2^64 - 1 are an error. */
  function ParseU64(s: string): (r: Option<nat>)
    ensures r.Some? ==> r.value <= U64_MAX
    ensures r.Some? ==> s != [] && (IsDigit(s[0]) || s[0] == '+')
  {
    var d := if s != [] && s[0] == '+' then s[1..] else s;
    if d != [] && AllDigits(d) && DigitsValue(d) <= U64_MAX then Some(DigitsValue(d)) else None
  }

  /** Parsing the decimal rendering of a `u64` gives the number back. */
  lemma ParseRendered(n: nat)
    requires n <= U64_MAX
    ensures ParseU64(NatToString(n)) == Some(n)
  {
    assert IsDigit(NatToString(n)[0]);
  }
}
