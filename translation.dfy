/**
 * The translation lookup shared, word for word, by `src/locales/index.ts` and
 * `src/language/index.ts`: nested-key resolution in a JSON translation tree,
 * `{{name}}`/`{name}` interpolation, and the lookup chain of `I18n.t`.
 */
module Translation {
  import opened Wrappers
  import opened Strings

  /** A node of a translation file: a string, or a table of named children. */
  datatype Node = Text(s: string) | Table(children: map<string, Node>)

  /** The locale `t` falls back to. */
  const FallbackLocale := "en-US"

  // ---------------------------------------------------------------- resolving

  /** One step `current = current[key]` of `resolveNestedValue`; `None` stands
      for `undefined`. A string, or nothing, cannot be indexed further. */
  function Step(current: Option<Node>, key: string): Option<Node> {
    match current
    case Some(Table(children)) => if key in children then Some(children[key]) else None
    case _ => None
  }

  /** The node reached by following `keys` from `current`. */
  function Walk(current: Option<Node>, keys: seq<string>): Option<Node>
    decreases |keys|
  {
    if keys == [] then current else Walk(Step(current, keys[0]), keys[1..])
  }

  /** The string at the end of the path, if the path ends at one. */
  function Resolve(source: Option<Node>, keys: seq<string>): Option<string> {
    match Walk(source, keys)
    case Some(Text(s)) => Some(s)
    case _ => None
  }

  /** Following a path in two legs is following it at once. */
  lemma {:induction false} WalkConcat(current: Option<Node>, a: seq<string>, b: seq<string>)
    ensures Walk(current, a + b) == Walk(Walk(current, a), b)
    decreases |a|
  {
    if a != [] {
      assert (a + b)[0] == a[0] && (a + b)[1..] == a[1..] + b;
      WalkConcat(Step(current, a[0]), a[1..], b);
    } else {
      assert a + b == b;
    }
  }

  lemma {:induction false} WalkFromNothing(keys: seq<string>)
    ensures Walk(None, keys) == None
    decreases |keys|
  {
    if keys != [] {
      WalkFromNothing(keys[1..]);
    }
  }

  /** A path that is missing a step, or reaches a string before its last key,
      resolves to nothing, whatever keys follow. */
  lemma ResolveFailsEarly(source: Option<Node>, a: seq<string>, b: seq<string>)
    requires Walk(source, a).None? || (Walk(source, a).Some? && Walk(source, a).value.Text? && b != [])
    ensures Resolve(source, a + b) == None
  {
    WalkConcat(source, a, b);
    if Walk(source, a).None? {
      WalkFromNothing(b);
    } else {
      WalkConcat(Walk(source, a), [b[0]], b[1..]);
      assert [b[0]] + b[1..] == b;
      assert Walk(Walk(source, a), [b[0]]) == Walk(None, []);
      WalkFromNothing(b[1..]);
    }
  }

  /** A string comes back exactly when the full path leads to a string. */
  lemma ResolveAtLeaf(source: Option<Node>, keys: seq<string>, s: string)
    ensures Resolve(source, keys) == Some(s) <==> Walk(source, keys) == Some(Text(s))
  {
  }

  /** `resolveNestedValue`. */
  method ResolveNestedValue(source: Option<Node>, keys: seq<string>) returns (r: Option<string>)
    ensures r == Resolve(source, keys)
  {
    var current := source;
    var i := 0;
    while i < |keys|
      invariant 0 <= i <= |keys|
      invariant Walk(current, keys[i..]) == Walk(source, keys)
    {
      assert keys[i..][1..] == keys[i + 1..];
      if !current.Some? || current.value.Text? {
        WalkFromNothing(keys[i + 1..]);
        return None;
      }
      current := Step(current, keys[i]);
      i := i + 1;
    }
    assert keys[i..] == [];
    if current.Some? && current.value.Text? {
      return Some(current.value.s);
    }
    return None;
  }

  // ---------------------------------------------------------------- interpolating

  function Repeat(c: char, n: nat): (r: string)
    ensures |r| == n && forall i :: 0 <= i < n ==> r[i] == c
  {
    if n == 0 then [] else [c] + Repeat(c, n - 1)
  }

  /** The length of a placeholder at the start of `s`: `depth` opening braces,
      one or more characters other than '}', and `depth` closing braces (the
      regular expressions `\{\{([^}]+)\}\}` and `\{([^}]+)\}`); 0 when none. */
  function PlaceholderLength(s: string, depth: nat): (m: nat)
    requires depth > 0
    ensures m == 0 || (2 * depth < m <= |s|)
  {
    if |s| < depth || s[..depth] != Repeat('{', depth) || '}' !in s[depth..] then 0
    else
      var j := depth + FirstIndexOf(s[depth..], '}');
      if j == depth || j + depth > |s| || s[j..j + depth] != Repeat('}', depth) then 0
      else j + depth
  }

  /** What a placeholder becomes: the option for its trimmed name, or itself
      when there is no such option (the option was `undefined` or `null`). */
  function Substitute(placeholder: string, depth: nat, options: map<string, string>): string
    requires 2 * depth < |placeholder|
  {
    var name := Trim(placeholder[depth..|placeholder| - depth], IsJsSpace);
    if name in options then options[name] else placeholder
  }

  /** One global regular-expression replace: placeholders are found left to
      right, and scanning resumes after each one replaced. */
  function Interpolate(s: string, depth: nat, options: map<string, string>): (r: string)
    requires depth > 0
    decreases |s|
  {
    if s == [] then []
    else
      var m := PlaceholderLength(s, depth);
      if m > 0 then Substitute(s[..m], depth, options) + Interpolate(s[m..], depth, options)
      else [s[0]] + Interpolate(s[1..], depth, options)
  }

  /** `interpolateVariables`: first the `{{name}}` pass, then the `{name}` pass
      over its result. */
  function InterpolateVariables(template: string, options: map<string, string>): string {
    Interpolate(Interpolate(template, 2, options), 1, options)
  }

  /** With no options every placeholder is left as it is. */
  lemma {:induction false} InterpolateNoOptions(s: string, depth: nat)
    requires depth > 0
    ensures Interpolate(s, depth, map[]) == s
    decreases |s|
  {
    if s != [] {
      var m := PlaceholderLength(s, depth);
      if m > 0 {
        InterpolateNoOptions(s[m..], depth);
        assert s[..m] + s[m..] == s;
      } else {
        InterpolateNoOptions(s[1..], depth);
        assert [s[0]] + s[1..] == s;
      }
    }
  }

  /** Text without an opening brace has no placeholder and is unchanged. */
  lemma {:induction false} InterpolateNoBraces(s: string, depth: nat, options: map<string, string>)
    requires depth > 0
    requires '{' !in s
    ensures Interpolate(s, depth, options) == s
    decreases |s|
  {
    if s != [] {
      assert PlaceholderLength(s, depth) == 0 by {
        if |s| >= depth {
          assert s[..depth][0] == s[0] != '{';
        }
      }
      InterpolateNoBraces(s[1..], depth, options);
      assert [s[0]] + s[1..] == s;
    }
  }

  lemma InterpolateVariablesNoOptions(template: string)
    ensures InterpolateVariables(template, map[]) == template
  {
    InterpolateNoOptions(template, 2);
    InterpolateNoOptions(template, 1);
  }

  /** A lone `{{name}}` placeholder whose trimmed name has an option becomes
      that option, provided the option's text has no brace of its own (the
      second pass would look inside it). */
  lemma InterpolateOne(name: string, options: map<string, string>)
    requires name != [] && '}' !in name && '{' !in name
    requires Trim(name, IsJsSpace) in options && '{' !in options[Trim(name, IsJsSpace)]
    ensures InterpolateVariables("{{" + name + "}}", options) == options[Trim(name, IsJsSpace)]
  {
    var s := "{{" + name + "}}";
    assert s[..2] == Repeat('{', 2);
    assert s[2..] == name + "}}";
    assert '}' in s[2..] by {
      assert s[2..][|name|] == '}';
    }
    var k := FirstIndexOf(s[2..], '}');
    assert k == |name| by {
      assert forall i :: 0 <= i < |name| ==> s[2..][i] == name[i];
    }
    assert s[2 + |name|..2 + |name| + 2] == Repeat('}', 2);
    assert PlaceholderLength(s, 2) == |s|;
    assert s[..|s|] == s && s[|s|..] == [];
    assert s[2..|s| - 2] == name;
    var v := options[Trim(name, IsJsSpace)];
    assert Interpolate(s, 2, options) == v + Interpolate([], 2, options);
    assert v + [] == v;
    InterpolateNoBraces(v, 1, options);
  }

  // ---------------------------------------------------------------- lookup

  /** The table of `locale`, if there is one. */
  function TableOf(tables: map<string, Node>, locale: string): Option<Node> {
    if locale in tables then Some(tables[locale]) else None
  }

  /** What `I18n.t` finds for a dotted key: the current locale's string, else
      the fallback locale's, else nothing. */
  function Lookup(tables: map<string, Node>, current: string, key: string): Option<string> {
    var keys := Split(key, '.');
    Resolve(TableOf(tables, current), keys).Or(Resolve(TableOf(tables, FallbackLocale), keys))
  }

  /** `I18n.t`: the key itself when neither locale has a string for it,
      otherwise that string with the options interpolated. */
  method T(tables: map<string, Node>, current: string, key: string, options: map<string, string>) returns (r: string)
    ensures Lookup(tables, current, key).None? ==> r == key
    ensures Lookup(tables, current, key).Some? ==> r == InterpolateVariables(Lookup(tables, current, key).value, options)
  {
    var keys := Split(key, '.');
    var resolved := ResolveNestedValue(TableOf(tables, current), keys);
    if resolved.None? {
      resolved := ResolveNestedValue(TableOf(tables, FallbackLocale), keys);
    }
    if resolved.None? {
      return key;
    }
    return InterpolateVariables(resolved.value, options);
  }

  /** The lookup chain: the current locale wins when it has the string;
      otherwise the answer is the fallback locale's. */
  lemma LookupChain(tables: map<string, Node>, current: string, key: string)
    ensures var keys := Split(key, '.');
      Resolve(TableOf(tables, current), keys).Some? ==> Lookup(tables, current, key) == Resolve(TableOf(tables, current), keys)
    ensures var keys := Split(key, '.');
      Resolve(TableOf(tables, current), keys).None? ==> Lookup(tables, current, key) == Lookup(tables, FallbackLocale, key)
  {
  }

  /** A key without dots is a one-step path. */
  lemma UndottedKey(tables: map<string, Node>, current: string, key: string)
    requires '.' !in key
    ensures Lookup(tables, current, key)
      == Resolve(TableOf(tables, current), [key]).Or(Resolve(TableOf(tables, FallbackLocale), [key]))
  {
    SplitAbsent(key, '.');
  }
}
