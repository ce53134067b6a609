/**
 * Version parsing and precedence, asset choice and release links of
 * `src-tauri/src/commands/update.rs`.
 *
 * Versions follow Semantic Versioning 2.0.0 loosely: build metadata is ignored
 * (section 10) and precedence follows section 11, but any run of leading `v`/`V`
 * is stripped, missing or unparseable core numbers read as 0, alphanumeric
 * identifiers are lower-cased and leading zeros are accepted.
 */
module Update {
  import opened Wrappers
  import opened Strings
  import opened Orders

  // ---------------------------------------------------------------- versions

  datatype PreIdent = Numeric(n: nat) | AlphaNum(s: string)

  /** A parsed version: three core numbers and an optional non-empty list of
      prerelease identifiers. */
  datatype ParsedVersion = ParsedVersion(core: seq<nat>, pre: Option<seq<PreIdent>>)

  /** `PreIdent::cmp`: numeric identifiers sort below alphanumeric ones. */
  function CompareIdent(a: PreIdent, b: PreIdent): (r: Ordering)
    ensures a.Numeric? && b.AlphaNum? ==> r == Less
    ensures a.Numeric? && b.Numeric? ==> (r == Less <==> a.n < b.n)
  {
    match (a, b)
    case (Numeric(x), Numeric(y)) => CompareNat(x, y)
    case (Numeric(_), AlphaNum(_)) => Less
    case (AlphaNum(_), Numeric(_)) => Greater
    case (AlphaNum(x), AlphaNum(y)) => CompareStrings(x, y)
  }

  /** `PreIdent::cmp` is a total order. */
  lemma CompareIdentOrder()
    ensures forall x, y :: CompareIdent(x, y) == CompareIdent(y, x).Flip()
    ensures forall x, y :: CompareIdent(x, y) == Equal <==> x == y
    ensures forall x, y, z :: CompareIdent(x, y) == Less && CompareIdent(y, z) == Less ==> CompareIdent(x, z) == Less
  {
    forall x, y ensures CompareIdent(x, y) == CompareIdent(y, x).Flip() && (CompareIdent(x, y) == Equal <==> x == y) {
      if x.AlphaNum? && y.AlphaNum? {
        CompareStringsOrder(x.s, y.s, y.s);
      }
    }
    forall x, y, z | CompareIdent(x, y) == Less && CompareIdent(y, z) == Less ensures CompareIdent(x, z) == Less {
      if x.AlphaNum? && y.AlphaNum? && z.AlphaNum? {
        CompareStringsOrder(x.s, y.s, z.s);
      }
    }
  }

  /** `ParsedVersion::cmp`: core numbers first; with equal cores a release is
      above any prerelease, and prerelease lists compare lexicographically. */
  function CompareVersion(a: ParsedVersion, b: ParsedVersion): Ordering {
    var c := LexCompare(a.core, b.core, CompareNat);
    if c != Equal then c
    else
      match (a.pre, b.pre)
      case (None, None) => Equal
      case (None, Some(_)) => Greater
      case (Some(_), None) => Less
      case (Some(x), Some(y)) => LexCompare(x, y, CompareIdent)
  }

  /** `ParsedVersion::cmp` is a total order that agrees with equality. */
  lemma CompareVersionOrder(a: ParsedVersion, b: ParsedVersion, c: ParsedVersion)
    ensures CompareVersion(a, b) == CompareVersion(b, a).Flip()
    ensures CompareVersion(a, b) == Equal <==> a == b
    ensures CompareVersion(a, b) == Less && CompareVersion(b, c) == Less ==> CompareVersion(a, c) == Less
  {
    CompareIdentOrder();
    LexFlip(a.core, b.core, CompareNat);
    LexEqual(a.core, b.core, CompareNat);
    if a.pre.Some? && b.pre.Some? {
      LexFlip(a.pre.value, b.pre.value, CompareIdent);
      LexEqual(a.pre.value, b.pre.value, CompareIdent);
    }
    if CompareVersion(a, b) == Less && CompareVersion(b, c) == Less {
      LexEqual(b.core, c.core, CompareNat);
      LexEqual(a.core, c.core, CompareNat);
      if LexCompare(a.core, b.core, CompareNat) == Less && LexCompare(b.core, c.core, CompareNat) == Less {
        LexTransitive(a.core, b.core, c.core, CompareNat);
      } else if a.pre.Some? && b.pre.Some? && c.pre.Some? && a.core == b.core && b.core == c.core {
        LexTransitive(a.pre.value, b.pre.value, c.pre.value, CompareIdent);
      }
    }
  }

  /** A release is above every prerelease of the same core. */
  lemma ReleaseAbovePrerelease(core: seq<nat>, pre: seq<PreIdent>)
    ensures CompareVersion(ParsedVersion(core, None), ParsedVersion(core, Some(pre))) == Greater
  {
    LexEqual(core, core, CompareNat);
  }

  /** The loop of `ParsedVersion::cmp` over two prerelease lists. */
  method ComparePre(a: seq<PreIdent>, b: seq<PreIdent>) returns (o: Ordering)
    ensures o == LexCompare(a, b, CompareIdent)
  {
    var n := if |a| > |b| then |a| else |b|;
    var i := 0;
    while i < n
      invariant 0 <= i <= |a| && i <= |b|
      invariant LexCompare(a[i..], b[i..], CompareIdent) == LexCompare(a, b, CompareIdent)
    {
      if i < |a| && i < |b| {
        var c := CompareIdent(a[i], b[i]);
        if c != Equal {
          return c;
        }
        assert a[i..][1..] == a[i + 1..] && b[i..][1..] == b[i + 1..];
        i := i + 1;
      } else if i < |a| {
        return Greater;
      } else {
        return Less;
      }
    }
    o := Equal;
  }

  /** `ParsedVersion::cmp`, step by step. */
  method Compare(a: ParsedVersion, b: ParsedVersion) returns (o: Ordering)
    ensures o == CompareVersion(a, b)
  {
    var c := LexCompare(a.core, b.core, CompareNat);
    if c != Equal {
      return c;
    }
    match (a.pre, b.pre)
    case (None, None) => o := Equal;
    case (None, Some(_)) => o := Greater;
    case (Some(_), None) => o := Less;
    case (Some(x), Some(y)) => o := ComparePre(x, y);
  }

  // ---------------------------------------------------------------- parsing

  /** `trim_start_matches(['v', 'V'])`. */
  function StripV(s: string): (r: string)
    ensures |r| <= |s| && r == s[|s| - |r|..]
    ensures r == [] || (r[0] != 'v' && r[0] != 'V')
    decreases |s|
  {
    if s != [] && (s[0] == 'v' || s[0] == 'V') then StripV(s[1..]) else s
  }

  /** Stripping stops at the first character that is not a `v`. */
  lemma {:induction false} StripVPast(x: string, c: char, y: string)
    requires c != 'v' && c != 'V'
    ensures StripV(x + [c] + y) == StripV(x) + [c] + y
    decreases |x|
  {
    var s := x + [c] + y;
    if x == [] {
      assert s == [c] + y && s[0] == c;
    } else {
      assert s[0] == x[0];
      if x[0] == 'v' || x[0] == 'V' {
        assert s[1..] == x[1..] + [c] + y;
        StripVPast(x[1..], c, y);
      }
    }
  }

  /** A core number: the trimmed piece parsed as `u64`, 0 when that fails. */
  function CoreNumber(piece: string): (n: nat)
    ensures n <= U64_MAX
  {
    ParseU64(Trim(piece, IsRustSpace)).GetOr(0)
  }

  /** The `k`-th core number: the `k`-th '.'-separated piece, 0 when missing. */
  function CoreAt(pieces: seq<string>, k: nat): (n: nat)
    ensures n <= U64_MAX
    ensures k >= |pieces| ==> n == 0
  {
    if k < |pieces| then CoreNumber(pieces[k]) else 0
  }

  /** The core numbers of the part before the first '-': the first three
      '.'-separated pieces, missing ones 0. */
  function CoreOf(corePart: string): (r: seq<nat>)
    ensures |r| == 3 && r[0] <= U64_MAX && r[1] <= U64_MAX && r[2] <= U64_MAX
  {
    var pieces := Split(corePart, '.');
    [CoreAt(pieces, 0), CoreAt(pieces, 1), CoreAt(pieces, 2)]
  }

  /** The loop of `parse_version` that fills the `[u64; 3]` core from the
      '.'-separated pieces of the core part (a Rust array is a value, hence a
      sequence here): it agrees with `CoreOf` piece by piece. */
  method ParseCore(pieces: seq<string>) returns (core: seq<nat>)
    ensures |core| == 3
    ensures forall k :: 0 <= k < 3 ==> core[k] == CoreAt(pieces, k)
  {
    core := [0, 0, 0];
    var idx := 0;
    while idx < 3 && idx < |pieces|
      invariant 0 <= idx <= 3 && idx <= |pieces| && |core| == 3
      invariant forall k :: 0 <= k < 3 ==> core[k] == if k < idx then CoreAt(pieces, k) else 0
    {
      core := core[idx := CoreNumber(pieces[idx])];
      idx := idx + 1;
    }
  }

  /** One prerelease identifier: numeric when it parses as `u64`, otherwise
      the lower-cased text. */
  function IdentOf(piece: string): (r: PreIdent)
    ensures r.Numeric? <==> ParseU64(piece).Some?
    ensures r.Numeric? ==> r.n <= U64_MAX
    ensures r.AlphaNum? ==> r.s == Lower(piece)
  {
    match ParseU64(piece)
    case Some(n) => Numeric(n)
    case None => AlphaNum(Lower(piece))
  }

  /** The identifiers of the non-empty pieces, in order. */
  function IdentsOf(pieces: seq<string>): (r: seq<PreIdent>)
    ensures |r| <= |pieces|
  {
    if pieces == [] then []
    else if pieces[0] == [] then IdentsOf(pieces[1..])
    else [IdentOf(pieces[0])] + IdentsOf(pieces[1..])
  }

  /** With no empty piece, every piece becomes an identifier in place. */
  lemma {:induction false} IdentsOfNonEmpty(pieces: seq<string>)
    requires forall i :: 0 <= i < |pieces| ==> pieces[i] != []
    ensures |IdentsOf(pieces)| == |pieces|
    ensures forall i :: 0 <= i < |pieces| ==> IdentsOf(pieces)[i] == IdentOf(pieces[i])
  {
    if pieces != [] {
      IdentsOfNonEmpty(pieces[1..]);
      var r := IdentsOf(pieces);
      assert r == [IdentOf(pieces[0])] + IdentsOf(pieces[1..]);
      forall i | 0 <= i < |pieces| ensures r[i] == IdentOf(pieces[i]) {
        if i > 0 {
          assert r[i] == IdentsOf(pieces[1..])[i - 1];
          assert pieces[1..][i - 1] == pieces[i];
        }
      }
    }
  }

  /** The prerelease list of the part after the first '-': `None` when it has
      no non-empty identifier. */
  function PreOf(prePart: string): (r: Option<seq<PreIdent>>)
    ensures r.Some? ==> r.value != []
  {
    var ids := IdentsOf(Split(prePart, '.'));
    if ids == [] then None else Some(ids)
  }

  /** `parse_version`. */
  function ParseVersion(input: string): (v: ParsedVersion)
    ensures |v.core| == 3 && v.core[0] <= U64_MAX && v.core[1] <= U64_MAX && v.core[2] <= U64_MAX
    ensures v.pre.Some? ==> v.pre.value != []
  {
    var normalized := StripV(Trim(input, IsRustSpace));
    var noBuild := Split(normalized, '+')[0];
    match SplitOnce(noBuild, '-')
    case None => ParsedVersion(CoreOf(noBuild), None)
    case Some((corePart, prePart)) => ParsedVersion(CoreOf(corePart), PreOf(prePart))
  }

  /** Build metadata is ignored: whatever follows the first '+' does not matter. */
  lemma ParseIgnoresBuild(v: string, build1: string, build2: string)
    requires '+' !in v
    ensures ParseVersion(v + "+" + build1) == ParseVersion(v + "+" + build2)
  {
    BuildFreePart(v, build1);
    BuildFreePart(v, build2);
  }

  /** The text `parse_version` keeps of `v + "+" + build`. */
  lemma BuildFreePart(v: string, build: string)
    requires '+' !in v
    ensures Split(StripV(Trim(v + "+" + build, IsRustSpace)), '+')[0] == StripV(TrimStart(v, IsRustSpace))
  {
    var t := TrimStart(v, IsRustSpace);
    var e := TrimEnd(build, IsRustSpace);
    var sv := StripV(t);
    assert Trim(v + "+" + build, IsRustSpace) == t + ['+'] + e by {
      assert v + "+" + build == v + ['+'] + build;
      TrimAround(v, '+', build, IsRustSpace);
    }
    assert StripV(t + ['+'] + e) == sv + ['+'] + e by {
      StripVPast(t, '+', e);
    }
    assert '+' !in sv by {
      TrimStartSuffix(v, IsRustSpace);
      AbsentFromSuffix(v, t, '+');
      AbsentFromSuffix(t, sv, '+');
    }
    assert Split(sv + ['+'] + e, '+')[0] == sv by {
      SplitAt(sv, '+', e);
    }
  }

  lemma AbsentFromSuffix<T>(x: seq<T>, y: seq<T>, c: T)
    requires c !in x && |y| <= |x| && y == x[|x| - |y|..]
    ensures c !in y
  {
    forall k | 0 <= k < |y|
      ensures y[k] != c
    {
      assert y[k] == x[|x| - |y| + k];
    }
  }

  /** A leading `v` in front of a version is ignored. */
  lemma ParseIgnoresLeadingV(s: string)
    requires s != [] && !IsRustSpace(s[0])
    ensures ParseVersion("v" + s) == ParseVersion(s)
  {
    var vs := "v" + s;
    assert vs == [] + ['v'] + s;
    TrimAround([], 'v', s, IsRustSpace);
    assert Trim(vs, IsRustSpace) == ['v'] + TrimEnd(s, IsRustSpace);
    var te := TrimEnd(s, IsRustSpace);
    assert s == [] + [s[0]] + s[1..];
    TrimEndPast([], s[0], s[1..], IsRustSpace);
    assert te != [] && te[0] == s[0];
    assert Trim(s, IsRustSpace) == te;
    assert (['v'] + te)[1..] == te;
  }

  // ---------------------------------------------------------------- rendering

  /** Text that reads back as the identifier. */
  function RenderIdent(id: PreIdent): string {
    match id
    case Numeric(n) => NatToString(n)
    case AlphaNum(s) => s
  }

  function RenderIdents(ids: seq<PreIdent>): (r: seq<string>)
    ensures |r| == |ids|
    ensures forall i :: 0 <= i < |ids| ==> r[i] == RenderIdent(ids[i])
  {
    seq(|ids|, i requires 0 <= i < |ids| => RenderIdent(ids[i]))
  }

  /** The usual text of a version: `major.minor.patch[-pre.ids]`. */
  function Render(v: ParsedVersion): string
    requires |v.core| == 3
  {
    NatToString(v.core[0]) + "." + NatToString(v.core[1]) + "." + NatToString(v.core[2])
    + (if v.pre.Some? then "-" + Join(RenderIdents(v.pre.value), ".") else "")
  }

  /** An alphanumeric identifier that `parse_version` produces unchanged:
      non-empty, lower-case, not a `u64`, free of '.' and '+', and not ending
      in whitespace. */
  predicate PlainAlphaNum(s: string) {
    s != [] && Lower(s) == s && ParseU64(s).None? && '.' !in s && '+' !in s
    && !IsRustSpace(s[|s| - 1])
  }

  predicate PlainIdent(id: PreIdent) {
    match id
    case Numeric(n) => n <= U64_MAX
    case AlphaNum(s) => PlainAlphaNum(s)
  }

  /** The versions `parse_version` can produce and `Render` writes out faithfully. */
  predicate PlainVersion(v: ParsedVersion) {
    && |v.core| == 3 && v.core[0] <= U64_MAX && v.core[1] <= U64_MAX && v.core[2] <= U64_MAX
    && (v.pre.Some? ==> v.pre.value != [] && forall i :: 0 <= i < |v.pre.value| ==> PlainIdent(v.pre.value[i]))
  }

  lemma NumeralFree(n: nat, c: char)
    requires !IsDigit(c)
    ensures c !in NatToString(n)
  {
  }

  /** Each rendered identifier reads back as itself. */
  lemma IdentRoundTrip(id: PreIdent)
    requires PlainIdent(id)
    ensures IdentOf(RenderIdent(id)) == id
    ensures RenderIdent(id) != [] && '.' !in RenderIdent(id) && '+' !in RenderIdent(id)
    ensures !IsRustSpace(RenderIdent(id)[|RenderIdent(id)| - 1])
  {
    match id
    case Numeric(n) =>
      ParseRendered(n);
      NumeralFree(n, '.');
      NumeralFree(n, '+');
      assert IsDigit(NatToString(n)[|NatToString(n)| - 1]);
    case AlphaNum(s) =>
  }

  /** The core text `a.b.c` reads back as the three numbers. */
  lemma CoreRoundTrip(a: nat, b: nat, c: nat)
    requires a <= U64_MAX && b <= U64_MAX && c <= U64_MAX
    ensures CoreOf(NatToString(a) + "." + NatToString(b) + "." + NatToString(c)) == [a, b, c]
  {
    var sa, sb, sc := NatToString(a), NatToString(b), NatToString(c);
    NumeralFree(a, '.');
    NumeralFree(b, '.');
    NumeralFree(c, '.');
    SplitThree(sa, sb, sc);
    NumeralCore(a);
    NumeralCore(b);
    NumeralCore(c);
  }

  /** A core piece that is a rendered `u64` reads back as it. */
  lemma NumeralCore(n: nat)
    requires n <= U64_MAX
    ensures CoreNumber(NatToString(n)) == n
  {
    NumeralTrimmed(n);
    ParseRendered(n);
  }

  /** Three dot-free pieces joined by dots split back into them. */
  lemma SplitThree(sa: string, sb: string, sc: string)
    requires '.' !in sa && '.' !in sb && '.' !in sc
    ensures Split(sa + "." + sb + "." + sc, '.') == [sa, sb, sc]
  {
    SplitAbsent(sc, '.');
    SplitAt(sb, '.', sc);
    assert sa + "." + sb + "." + sc == sa + ['.'] + (sb + ['.'] + sc);
    SplitAt(sa, '.', sb + ['.'] + sc);
  }

  lemma NumeralTrimmed(n: nat)
    ensures Trim(NatToString(n), IsRustSpace) == NatToString(n)
  {
    var s := NatToString(n);
    assert IsDigit(s[0]) && IsDigit(s[|s| - 1]);
    TrimOfTrimmed(s, IsRustSpace);
  }

  /** The text `parse_version` works on, before the '-' split, is the whole
      input when it starts with a digit, ends in a non-space and has no '+'. */
  lemma NoBuildOfPlain(text: string)
    requires text != [] && IsDigit(text[0]) && !IsRustSpace(text[|text| - 1]) && '+' !in text
    ensures Split(StripV(Trim(text, IsRustSpace)), '+')[0] == text
  {
    assert !IsRustSpace(text[0]);
    TrimOfTrimmed(text, IsRustSpace);
    NotV(text);
    SplitAbsent(text, '+');
  }

  lemma NotV(text: string)
    requires text != [] && IsDigit(text[0])
    ensures StripV(text) == text
  {
  }

  /** The facts about the core text `a.b.c` that parsing relies on. */
  lemma CoreText(a: nat, b: nat, c: nat)
    ensures var t := NatToString(a) + "." + NatToString(b) + "." + NatToString(c);
      t != [] && IsDigit(t[0]) && IsDigit(t[|t| - 1]) && '-' !in t && '+' !in t
  {
    var sa, sc := NatToString(a), NatToString(c);
    var t := sa + "." + NatToString(b) + "." + sc;
    assert t[0] == sa[0] && t[|t| - 1] == sc[|sc| - 1];
    NumeralFree(a, '-'); NumeralFree(b, '-'); NumeralFree(c, '-');
    NumeralFree(a, '+'); NumeralFree(b, '+'); NumeralFree(c, '+');
  }

  /** Each rendered identifier is a non-empty, '.'- and '+'-free piece that
      reads back as the identifier. */
  lemma RenderedPieces(ids: seq<PreIdent>)
    requires forall i :: 0 <= i < |ids| ==> PlainIdent(ids[i])
    ensures forall i :: 0 <= i < |ids| ==> var p := RenderIdents(ids)[i];
      IdentOf(p) == ids[i] && p != [] && '.' !in p && '+' !in p && !IsRustSpace(p[|p| - 1])
  {
    var strs := RenderIdents(ids);
    forall i | 0 <= i < |ids|
      ensures IdentOf(strs[i]) == ids[i] && strs[i] != [] && '.' !in strs[i] && '+' !in strs[i]
      ensures !IsRustSpace(strs[i][|strs[i]| - 1])
    {
      IdentRoundTrip(ids[i]);
    }
  }

  /** The rendered prerelease list reads back as itself. */
  lemma PreRoundTrip(ids: seq<PreIdent>)
    requires ids != [] && forall i :: 0 <= i < |ids| ==> PlainIdent(ids[i])
    ensures var j := Join(RenderIdents(ids), ".");
      j != [] && '+' !in j && !IsRustSpace(j[|j| - 1]) && PreOf(j) == Some(ids)
  {
    var strs := RenderIdents(ids);
    RenderedPieces(ids);
    JoinedPieces(strs);
    IdentsOfNonEmpty(strs);
    assert IdentsOf(strs) == ids;
  }

  /** Joining non-empty, '.'- and '+'-free pieces with dots gives a text
      without '+' that ends like the last piece and splits back into them. */
  lemma JoinedPieces(strs: seq<string>)
    requires strs != []
    requires forall i :: 0 <= i < |strs| ==> strs[i] != [] && '.' !in strs[i] && '+' !in strs[i]
    requires !IsRustSpace(strs[|strs| - 1][|strs[|strs| - 1]| - 1])
    ensures var j := Join(strs, ".");
      j != [] && '+' !in j && !IsRustSpace(j[|j| - 1]) && Split(j, '.') == strs
  {
    var joined := Join(strs, ".");
    JoinExcludes(strs, ".", '+');
    JoinEndsWithLast(strs, ".");
    var last := strs[|strs| - 1];
    assert joined[|joined| - 1] == last[|last| - 1];
    SplitJoin(strs, '.');
  }

  lemma ThreeElements(s: seq<nat>)
    requires |s| == 3
    ensures s == [s[0], s[1], s[2]]
  {
  }

  /** Parsing `core` followed by `-` and a rendered prerelease list. */
  lemma ParseWithPre(a: nat, b: nat, c: nat, ids: seq<PreIdent>)
    requires a <= U64_MAX && b <= U64_MAX && c <= U64_MAX
    requires ids != [] && forall i :: 0 <= i < |ids| ==> PlainIdent(ids[i])
    ensures var core := NatToString(a) + "." + NatToString(b) + "." + NatToString(c);
      ParseVersion(core + "-" + Join(RenderIdents(ids), ".")) == ParsedVersion([a, b, c], Some(ids))
  {
    var core := NatToString(a) + "." + NatToString(b) + "." + NatToString(c);
    CoreRoundTrip(a, b, c);
    CoreText(a, b, c);
    var joined := Join(RenderIdents(ids), ".");
    PreRoundTrip(ids);
    var text := core + "-" + joined;
    assert text == core + ['-'] + joined;
    assert text[0] == core[0] && text[|text| - 1] == joined[|joined| - 1];
    NoBuildOfPlain(text);
    SplitOnceAt(core, '-', joined);
  }

  /** Parsing the bare core text `a.b.c`. */
  lemma ParseWithoutPre(a: nat, b: nat, c: nat)
    requires a <= U64_MAX && b <= U64_MAX && c <= U64_MAX
    ensures ParseVersion(NatToString(a) + "." + NatToString(b) + "." + NatToString(c)) == ParsedVersion([a, b, c], None)
  {
    var core := NatToString(a) + "." + NatToString(b) + "." + NatToString(c);
    CoreRoundTrip(a, b, c);
    CoreText(a, b, c);
    NoBuildOfPlain(core);
    assert SplitOnce(core, '-').None?;
  }

  /** Round trip: parsing the rendering of a plain version gives it back. */
  lemma ParseRender(v: ParsedVersion)
    requires PlainVersion(v)
    ensures ParseVersion(Render(v)) == v
  {
    var a, b, c := v.core[0], v.core[1], v.core[2];
    var core := NatToString(a) + "." + NatToString(b) + "." + NatToString(c);
    ThreeElements(v.core);
    if v.pre.Some? {
      assert Render(v) == core + "-" + Join(RenderIdents(v.pre.value), ".");
      ParseWithPre(a, b, c, v.pre.value);
    } else {
      assert Render(v) == core;
      ParseWithoutPre(a, b, c);
    }
  }

  // ---------------------------------------------------------------- comparing

  /** `compare_versions`: the latest version is strictly above the current one. */
  function CompareVersions(current: string, latest: string): bool {
    CompareVersion(ParseVersion(latest), ParseVersion(current)) == Greater
  }

  /** Never an update from a version to itself, never in both directions, and
      transitive. */
  lemma CompareVersionsOrder(a: string, b: string, c: string)
    ensures !CompareVersions(a, a)
    ensures !(CompareVersions(a, b) && CompareVersions(b, a))
    ensures CompareVersions(a, b) && CompareVersions(b, c) ==> CompareVersions(a, c)
  {
    var pa, pb, pc := ParseVersion(a), ParseVersion(b), ParseVersion(c);
    CompareVersionOrder(pa, pa, pa);
    CompareVersionOrder(pb, pa, pa);
    CompareVersionOrder(pc, pb, pa);
    CompareVersionOrder(pb, pc, pa);
    CompareVersionOrder(pa, pb, pc);
    CompareVersionOrder(pc, pa, pa);
  }

  /** A plain version whose rendering is `text` parses from `text`. */
  lemma RenderedAs(v: ParsedVersion, text: string)
    requires PlainVersion(v) && Render(v) == text
    ensures ParseVersion(text) == v
  {
    ParseRender(v);
  }

  lemma Parses123()
    ensures ParseVersion("1.2.3") == ParsedVersion([1, 2, 3], None)
  {
    RenderedAs(ParsedVersion([1, 2, 3], None), "1.2.3");
  }

  lemma Parses124()
    ensures ParseVersion("1.2.4") == ParsedVersion([1, 2, 4], None)
  {
    RenderedAs(ParsedVersion([1, 2, 4], None), "1.2.4");
  }

  lemma Parses199()
    ensures ParseVersion("1.9.9") == ParsedVersion([1, 9, 9], None)
  {
    RenderedAs(ParsedVersion([1, 9, 9], None), "1.9.9");
  }

  lemma Parses200()
    ensures ParseVersion("2.0.0") == ParsedVersion([2, 0, 0], None)
  {
    RenderedAs(ParsedVersion([2, 0, 0], None), "2.0.0");
  }

  /** `1.2.3-<tag>.<n>` for a plain tag and a one-digit number. */
  lemma ParsesTagged(tag: string, n: nat)
    requires PlainAlphaNum(tag) && n < 10
    ensures ParseVersion("1.2.3-" + tag + "." + [DigitChar(n)]) == ParsedVersion([1, 2, 3], Some([AlphaNum(tag), Numeric(n)]))
  {
    var v := ParsedVersion([1, 2, 3], Some([AlphaNum(tag), Numeric(n)]));
    TaggedRender(tag, n);
    assert PlainVersion(v);
    RenderedAs(v, "1.2.3-" + tag + "." + [DigitChar(n)]);
  }

  lemma TaggedRender(tag: string, n: nat)
    requires n < 10
    ensures Render(ParsedVersion([1, 2, 3], Some([AlphaNum(tag), Numeric(n)]))) == "1.2.3-" + tag + "." + [DigitChar(n)]
  {
    assert NatToString(n) == [DigitChar(n)];
    assert RenderIdents([AlphaNum(tag), Numeric(n)]) == [tag, [DigitChar(n)]];
    assert Join([tag, [DigitChar(n)]], ".") == tag + "." + [DigitChar(n)];
    assert NatToString(1) + "." + NatToString(2) + "." + NatToString(3) == "1.2.3";
  }

  lemma PlainTags()
    ensures PlainAlphaNum("beta") && PlainAlphaNum("rc")
  {
    assert "beta"[0] == 'b' && "rc"[0] == 'r';
  }

  /** The test inputs, spelled as the pieces the general lemmas speak of. */
  lemma TestTexts()
    ensures "1.2.3-" + "beta" + "." + [DigitChar(1)] == "1.2.3-beta.1"
    ensures "1.2.3-" + "beta" + "." + [DigitChar(2)] == "1.2.3-beta.2"
    ensures "1.2.3-" + "rc" + "." + [DigitChar(1)] == "1.2.3-rc.1"
    ensures "1.2.3-" + "rc" + "." + [DigitChar(2)] == "1.2.3-rc.2"
    ensures "v" + "1.9.9" == "v1.9.9"
    ensures "1.2.3" + "+" + "abc" == "1.2.3+abc" && "1.2.3" + "+" + "def" == "1.2.3+def"
  {
  }

  lemma ParsesBeta1()
    ensures ParseVersion("1.2.3-beta.1") == ParsedVersion([1, 2, 3], Some([AlphaNum("beta"), Numeric(1)]))
  {
    PlainTags();
    ParsesTagged("beta", 1);
    TestTexts();
  }

  lemma ParsesBeta2()
    ensures ParseVersion("1.2.3-beta.2") == ParsedVersion([1, 2, 3], Some([AlphaNum("beta"), Numeric(2)]))
  {
    PlainTags();
    ParsesTagged("beta", 2);
    TestTexts();
  }

  lemma ParsesRc1()
    ensures ParseVersion("1.2.3-rc.1") == ParsedVersion([1, 2, 3], Some([AlphaNum("rc"), Numeric(1)]))
  {
    PlainTags();
    ParsesTagged("rc", 1);
    TestTexts();
  }

  lemma ParsesRc2()
    ensures ParseVersion("1.2.3-rc.2") == ParsedVersion([1, 2, 3], Some([AlphaNum("rc"), Numeric(2)]))
  {
    PlainTags();
    ParsesTagged("rc", 2);
    TestTexts();
  }

  lemma ParsesV199()
    ensures ParseVersion("v1.9.9") == ParsedVersion([1, 9, 9], None)
  {
    Parses199();
    ParseIgnoresLeadingV("1.9.9");
    TestTexts();
  }

  lemma ParsesWithBuild()
    ensures ParseVersion("1.2.3+abc") == ParseVersion("1.2.3+def")
  {
    ParseIgnoresBuild("1.2.3", "abc", "def");
    TestTexts();
  }

  /** Two prereleases of 1.2.3 with the same tag compare by their numbers. */
  lemma SameTagByNumber(tag: string, m: nat, n: nat)
    ensures CompareVersion(ParsedVersion([1, 2, 3], Some([AlphaNum(tag), Numeric(m)])),
                           ParsedVersion([1, 2, 3], Some([AlphaNum(tag), Numeric(n)]))) == CompareNat(m, n)
  {
    var c: seq<nat> := [1, 2, 3];
    LexEqual(c, c, CompareNat);
    LexEqual(tag, tag, CompareChar);
    var a, b := [AlphaNum(tag), Numeric(m)], [AlphaNum(tag), Numeric(n)];
    assert CompareIdent(a[0], b[0]) == Equal;
    assert a[1..] == [Numeric(m)] && b[1..] == [Numeric(n)];
    assert LexCompare([Numeric(m)], [Numeric(n)], CompareIdent) == CompareNat(m, n) by {
      assert [Numeric(m)][1..] == [] && [Numeric(n)][1..] == [];
    }
    assert LexCompare(a, b, CompareIdent) == CompareNat(m, n);
  }

  /** The unit tests of `update.rs`: a prerelease is below its release and
      prereleases with the same tag compare numerically. */
  lemma PrereleaseTestCases()
    ensures CompareVersions("1.2.3-beta.1", "1.2.3")
    ensures !CompareVersions("1.2.3", "1.2.3-beta.1")
    ensures CompareVersions("1.2.3-beta.1", "1.2.3-beta.2")
    ensures !CompareVersions("1.2.3-rc.2", "1.2.3-rc.1")
  {
    Parses123();
    ParsesBeta1();
    ParsesBeta2();
    ParsesRc1();
    ParsesRc2();
    var r := ParsedVersion([1, 2, 3], None);
    var b1 := ParsedVersion([1, 2, 3], Some([AlphaNum("beta"), Numeric(1)]));
    ReleaseAbovePrerelease([1, 2, 3], [AlphaNum("beta"), Numeric(1)]);
    CompareVersionOrder(r, b1, b1);
    SameTagByNumber("beta", 2, 1);
    SameTagByNumber("rc", 1, 2);
  }

  lemma PatchAndMajorOrder()
    ensures CompareVersion(ParsedVersion([1, 2, 4], None), ParsedVersion([1, 2, 3], None)) == Greater
    ensures CompareVersion(ParsedVersion([1, 2, 3], None), ParsedVersion([1, 2, 4], None)) == Less
    ensures CompareVersion(ParsedVersion([2, 0, 0], None), ParsedVersion([1, 9, 9], None)) == Greater
  {
    var x: seq<nat>, y: seq<nat>, z: seq<nat> := [1, 2, 4], [1, 2, 3], [2, 0, 0];
    assert x[1..] == [2, 4] && x[1..][1..] == [4] && y[1..] == [2, 3] && y[1..][1..] == [3];
    assert LexCompare(x, y, CompareNat) == Greater;
    assert LexCompare(y, x, CompareNat) == Less;
    assert LexCompare(z, [1, 9, 9], CompareNat) == Greater;
  }

  /** The unit tests of `update.rs`: core numbers compare numerically, a
      leading `v` is ignored, equal versions are no update and build metadata
      is ignored. */
  lemma ReleaseTestCases()
    ensures CompareVersions("1.2.3", "1.2.4")
    ensures !CompareVersions("1.2.4", "1.2.3")
    ensures CompareVersions("v1.9.9", "2.0.0")
    ensures !CompareVersions("2.0.0", "2.0.0")
    ensures ParseVersion("1.2.3+abc") == ParseVersion("1.2.3+def")
  {
    Parses123();
    Parses124();
    Parses199();
    Parses200();
    ParsesV199();
    ParsesWithBuild();
    PatchAndMajorOrder();
    var v200 := ParsedVersion([2, 0, 0], None);
    CompareVersionOrder(v200, v200, v200);
  }

  // ---------------------------------------------------------------- releases

  datatype ReleaseAsset = ReleaseAsset(name: string, downloadUrl: string)

  datatype TargetOs = Windows | MacOs | OtherOs

  /** The installer suffixes tried on each platform, in priority order. */
  function TargetSuffixes(os: TargetOs): seq<string> {
    match os
    case Windows => [".msi", ".exe"]
    case MacOs => [".dmg", ".app", ".tar.gz"]
    case OtherOs => [".appimage", ".deb", ".rpm", ".tar.gz"]
  }

  predicate AssetMatches(asset: ReleaseAsset, suffix: string) {
    EndsWith(Lower(asset.name), suffix)
  }

  /** The first asset, in list order, whose lower-cased name ends with `suffix`. */
  function FirstMatching(assets: seq<ReleaseAsset>, suffix: string): (r: Option<nat>)
    ensures r.Some? ==> r.value < |assets| && AssetMatches(assets[r.value], suffix)
    ensures r.Some? ==> forall j :: 0 <= j < r.value ==> !AssetMatches(assets[j], suffix)
    ensures r.None? ==> forall j :: 0 <= j < |assets| ==> !AssetMatches(assets[j], suffix)
  {
    if assets == [] then None
    else if AssetMatches(assets[0], suffix) then Some(0)
    else match FirstMatching(assets[1..], suffix)
      case None => None
      case Some(k) => Some(k + 1)
  }

  /** The asset `find_suitable_asset` picks: suffixes are tried in priority
      order and the first that any asset matches decides; none when no asset
      matches any suffix. */
  function SuitableAsset(assets: seq<ReleaseAsset>, suffixes: seq<string>): (r: Option<string>)
    ensures r.None? <==> forall i, j :: 0 <= i < |suffixes| && 0 <= j < |assets| ==> !AssetMatches(assets[j], suffixes[i])
    decreases |suffixes|
  {
    if suffixes == [] then None
    else match FirstMatching(assets, suffixes[0])
      case Some(j) => Some(assets[j].downloadUrl)
      case None =>
        assert forall i :: 1 <= i < |suffixes| ==> suffixes[i] == suffixes[1..][i - 1];
        SuitableAsset(assets, suffixes[1..])
  }

  /** Priority: when suffix `i` is the first that any asset matches, the pick
      is the first asset matching it. */
  lemma {:induction false} SuitableAssetPriority(assets: seq<ReleaseAsset>, suffixes: seq<string>, i: nat)
    requires i < |suffixes| && FirstMatching(assets, suffixes[i]).Some?
    requires forall k :: 0 <= k < i ==> FirstMatching(assets, suffixes[k]).None?
    ensures SuitableAsset(assets, suffixes) == Some(assets[FirstMatching(assets, suffixes[i]).value].downloadUrl)
    decreases i
  {
    if i > 0 {
      var rest := suffixes[1..];
      assert rest[i - 1] == suffixes[i];
      assert forall k :: 0 <= k < i - 1 ==> rest[k] == suffixes[k + 1];
      SuitableAssetPriority(assets, rest, i - 1);
    }
  }

  /** `find_suitable_asset`, one suffix after another. */
  method FindSuitableAsset(assets: seq<ReleaseAsset>, suffixes: seq<string>) returns (r: Option<string>)
    ensures r == SuitableAsset(assets, suffixes)
  {
    var k := 0;
    while k < |suffixes|
      invariant 0 <= k <= |suffixes|
      invariant SuitableAsset(assets, suffixes[k..]) == SuitableAsset(assets, suffixes)
    {
      var found := FirstMatching(assets, suffixes[k]);
      if found.Some? {
        return Some(assets[found.value].downloadUrl);
      }
      assert suffixes[k..][1..] == suffixes[k + 1..];
      k := k + 1;
    }
    r := None;
  }

  /** The two places releases are fetched from. */
  datatype UpdateSource = Gitee | GitHub

  datatype RepoConfig = RepoConfig(owner: string, repo: string, apiBase: string, webBase: string, acceptHeader: string)

  function Config(source: UpdateSource): RepoConfig {
    match source
    case Gitee => RepoConfig("fps_z", "SeaLantern", "https://gitee.com/api/v5/repos", "https://gitee.com", "application/json")
    case GitHub => RepoConfig("FPSZ", "SeaLantern", "https://api.github.com/repos", "https://github.com", "application/vnd.github+json")
  }

  function SourceName(source: UpdateSource): string {
    match source
    case Gitee => "gitee"
    case GitHub => "github"
  }

  /** `RepoConfig::api_url`. */
  function ApiUrl(c: RepoConfig): (r: string)
    ensures StartsWith(r, c.apiBase + "/") && EndsWith(r, "/releases/latest")
  {
    c.apiBase + "/" + c.owner + "/" + c.repo + "/releases/latest"
  }

  /** `RepoConfig::release_url`. */
  function ReleaseUrl(c: RepoConfig, tag: string): (r: string)
    ensures StartsWith(r, c.webBase + "/") && EndsWith(r, "/releases/tag/" + tag)
  {
    c.webBase + "/" + c.owner + "/" + c.repo + "/releases/tag/" + tag
  }

  /** Different tags give different release pages. */
  lemma ReleaseUrlInjective(c: RepoConfig, t1: string, t2: string)
    requires ReleaseUrl(c, t1) == ReleaseUrl(c, t2)
    ensures t1 == t2
  {
    var prefix := c.webBase + "/" + c.owner + "/" + c.repo + "/releases/tag/";
    assert ReleaseUrl(c, t1) == prefix + t1 && ReleaseUrl(c, t2) == prefix + t2;
    assert t1 == (prefix + t1)[|prefix|..];
  }

  datatype Release = Release(tagName: string, htmlUrl: Option<string>, body: Option<string>,
    assets: seq<ReleaseAsset>, publishedAt: Option<string>, createdAt: Option<string>)

  datatype UpdateInfo = UpdateInfo(hasUpdate: bool, latestVersion: string, currentVersion: string,
    downloadUrl: Option<string>, releaseNotes: Option<string>, publishedAt: Option<string>, source: Option<string>)

  /** What `fetch_release` makes of a release it received. */
  function UpdateInfoOf(release: Release, config: RepoConfig, current: string, source: string, suffixes: seq<string>): (r: UpdateInfo)
    ensures r.latestVersion == StripV(release.tagName)
    ensures r.hasUpdate == CompareVersions(current, StripV(release.tagName))
    ensures r.downloadUrl.Some?
    ensures SuitableAsset(release.assets, suffixes).None? && release.htmlUrl.None? ==>
      r.downloadUrl == Some(ReleaseUrl(config, release.tagName))
    ensures SuitableAsset(release.assets, suffixes).Some? ==> r.downloadUrl == SuitableAsset(release.assets, suffixes)
    ensures SuitableAsset(release.assets, suffixes).None? && release.htmlUrl.Some? ==> r.downloadUrl == release.htmlUrl
    ensures r.currentVersion == current && r.releaseNotes == release.body && r.source == Some(source)
    ensures r.publishedAt == (if release.publishedAt.Some? then release.publishedAt else release.createdAt)
  {
    var latest := StripV(release.tagName);
    UpdateInfo(
      CompareVersions(current, latest), latest, current,
      SuitableAsset(release.assets, suffixes).Or(release.htmlUrl.Or(Some(ReleaseUrl(config, release.tagName)))),
      release.body, release.publishedAt.Or(release.createdAt), Some(source))
  }

  /** `check_update`: Gitee first, GitHub only when Gitee fails, both errors
      reported when both fail. */
  function CheckUpdate(gitee: Result<UpdateInfo, string>, github: Result<UpdateInfo, string>): (r: Result<UpdateInfo, string>)
    ensures gitee.Ok? ==> r == gitee
    ensures gitee.Err? && github.Ok? ==> r == github
    ensures r.Err? <==> gitee.Err? && github.Err?
    ensures r.Err? ==> StartsWith(r.error, "Both Gitee and GitHub failed. Gitee: ")
  {
    match gitee
    case Ok(_) => gitee
    case Err(ge) =>
      match github
      case Ok(_) => github
      case Err(he) => Err("Both Gitee and GitHub failed. Gitee: " + ge + "; GitHub: " + he)
  }
}
