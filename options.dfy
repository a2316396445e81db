/** Template options taken from a template's frontmatter, command-line
    overrides of matrix iterables, and the `skip_if` test. Deserialising the
    frontmatter (serde) is a `decode` parameter; rendering a condition with Tera
    is a `oneOff` parameter. */
module Options {
  import opened Wrappers
  import opened Text
  import Colors

  /** The frontmatter values the options are read from (`tera::Value`). */
  datatype Value =
    | Null
    | Bool(b: bool)
    | Number(n: int)
    | Str(s: string)
    | Array(items: seq<Value>)
    | Object(fields: map<string, Value>)

  /** The template context: frontmatter values, and the flavour and its colours
      bound for one render. */
  datatype CtxValue = Plain(value: Value) | FlavorCtx(flavor: Colors.Flavor) | ColorCtx(color: Colors.Color)
  type Context = map<string, CtxValue>

  /** Tera's `one_off` rendering of a template string in a context. */
  type OneOff = (string, Context) -> Result<string, string>

  /** A matrix: each key with the list of values it ranges over. */
  type Matrix = map<string, seq<string>>

  /** The `whiskers` section as deserialised, with the matrix already expanded. */
  datatype RawOptions = RawOptions(
    matrix: Option<Matrix>, filename: Option<string>, hexFormat: Option<string>,
    hexPrefix: Option<string>, capitalizeHex: bool, skipIf: Option<string>)

  datatype TemplateOptions = TemplateOptions(
    matrix: Option<Matrix>, filename: Option<string>, hexFormat: string, skipIf: Option<string>)

  const OptionsSection: string := "whiskers"

  /** `default_hex_format`. */
  function DefaultHexFormat(): string {
    "{{r}}{{g}}{{b}}{{z}}"
  }

  /** The hex format of a `whiskers` section: an explicit `hex_format` verbatim,
      otherwise the prefix (empty by default) followed by the default components,
      upper-cased when `capitalize_hex` is set. */
  function DeriveHexFormat(raw: RawOptions): (f: string)
    ensures raw.hexFormat.Some? ==> f == raw.hexFormat.value
    ensures raw.hexFormat.None? ==>
              var prefix := if raw.hexPrefix.Some? then raw.hexPrefix.value else "";
              && |f| == |prefix| + 20 && f[..|prefix|] == prefix
              && f[|prefix|..] == if raw.capitalizeHex then "{{R}}{{G}}{{B}}{{Z}}" else "{{r}}{{g}}{{b}}{{z}}"
  {
    if raw.hexFormat.Some? then raw.hexFormat.value
    else
      var prefix := if raw.hexPrefix.Some? then raw.hexPrefix.value else "";
      var components := DefaultHexFormat();
      var f := if raw.capitalizeHex then prefix + AsciiUpper(components) else prefix + components;
      assert f[..|prefix|] == prefix;
      assert raw.capitalizeHex ==> f[|prefix|..] == AsciiUpper(components);
      f
  }

  /** `TemplateOptions::from_frontmatter`: without a `whiskers` section every
      option is absent and the hex format is the default one. */
  function FromFrontmatter(frontmatter: map<string, Value>, decode: Value -> Result<RawOptions, string>)
    : (r: Result<TemplateOptions, string>)
    ensures OptionsSection !in frontmatter ==> r == Ok(TemplateOptions(None, None, DefaultHexFormat(), None))
    ensures OptionsSection in frontmatter ==> (r.Ok? <==> decode(frontmatter[OptionsSection]).Ok?)
    ensures OptionsSection in frontmatter && r.Ok? ==>
              var raw := decode(frontmatter[OptionsSection]).value;
              r.value == TemplateOptions(raw.matrix, raw.filename, DeriveHexFormat(raw), raw.skipIf)
  {
    if OptionsSection in frontmatter then
      match decode(frontmatter[OptionsSection])
      case Err(_) => Err("Frontmatter `whiskers` section is invalid")
      case Ok(raw) => Ok(TemplateOptions(raw.matrix, raw.filename, DeriveHexFormat(raw), raw.skipIf))
    else Ok(TemplateOptions(None, None, DefaultHexFormat(), None))
  }

  /** `capitalize_hex` with a `#` prefix upper-cases the components only. */
  lemma CapitalizedHexFormat()
    ensures DeriveHexFormat(RawOptions(None, None, None, Some("#"), true, None)) == "#{{R}}{{G}}{{B}}{{Z}}"
  {
    var f := DeriveHexFormat(RawOptions(None, None, None, Some("#"), true, None));
    assert f == f[..1] + f[1..];
  }

  /** A `#` prefix alone goes in front of the default components. */
  lemma PrefixedHexFormat()
    ensures DeriveHexFormat(RawOptions(None, None, None, Some("#"), false, None)) == "#{{r}}{{g}}{{b}}{{z}}"
  {
    var f := DeriveHexFormat(RawOptions(None, None, None, Some("#"), false, None));
    assert f == f[..1] + f[1..];
  }

  // ---------------------------------------------------------------------------
  // Matrix overrides

  /** The strings of a list, or `None` when some element is not a string. */
  function StringsOf(vs: seq<Value>): (r: Option<seq<string>>)
    ensures r.Some? <==> forall i :: 0 <= i < |vs| ==> vs[i].Str?
    ensures r.Some? ==> |r.value| == |vs| && forall i :: 0 <= i < |vs| ==> r.value[i] == vs[i].s
    decreases |vs|
  {
    if vs == [] then Some([])
    else if !vs[0].Str? then None
    else
      match StringsOf(vs[1..])
      case None =>
        assert exists i :: 1 <= i < |vs| && !vs[i].Str? by {
          var i :| 0 <= i < |vs[1..]| && !vs[1..][i].Str?;
          assert vs[i + 1] == vs[1..][i];
        }
        None
      case Some(rest) =>
        assert forall i :: 1 <= i < |vs| ==> vs[i] == vs[1..][i - 1];
        Some([vs[0].s] + rest)
  }

  /** What `override_matrix` makes of a matrix. An absent key changes nothing; a
      list of strings replaces the key's values with exactly that list, and a
      list with any other element is an error; a string replaces them with a
      one-element list; any other value changes nothing. No other key changes. */
  function OverrideMatrix(m: Matrix, value: Value, key: string): (r: Result<Matrix, string>)
    ensures key !in m ==> r == Ok(m)
    ensures r.Err? <==> key in m && value.Array? && exists i :: 0 <= i < |value.items| && !value.items[i].Str?
    ensures r.Ok? ==> r.value.Keys == m.Keys && forall k :: k in m && k != key ==> r.value[k] == m[k]
    ensures r.Ok? && key in m && value.Array? ==>
              |r.value[key]| == |value.items| && forall i :: 0 <= i < |value.items| ==> r.value[key][i] == value.items[i].s
    ensures key in m && value.Str? ==> r.Ok? && r.value[key] == [value.s]
    ensures !value.Array? && !value.Str? ==> r == Ok(m)
  {
    if key !in m then Ok(m)
    else if value.Array? then
      match StringsOf(value.items)
      case None => Err("Override value is not a list of strings")
      case Some(list) => Ok(m[key := list])
    else if value.Str? then Ok(m[key := [value.s]])
    else Ok(m)
  }

  /** The matrix of a template, whose entries `override_matrix` replaces in place. */
  class TemplateMatrix {
    var entries: Matrix

    constructor (entries: Matrix)
      ensures this.entries == entries
    {
      this.entries := entries;
    }

    /** `override_matrix`: the list is validated before the entry is replaced,
        so on an error the matrix is untouched. */
    method Override(value: Value, key: string) returns (r: Result<(), string>)
      modifies this
      ensures r.Ok? <==> OverrideMatrix(old(entries), value, key).Ok?
      ensures r.Ok? ==> entries == OverrideMatrix(old(entries), value, key).value
      ensures r.Err? ==> entries == old(entries) && r.error == OverrideMatrix(old(entries), value, key).error
    {
      if key !in entries {
        return Ok(());
      }
      if value.Array? {
        var list := StringsOf(value.items);
        if list.None? {
          return Err("Override value is not a list of strings");
        }
        entries := entries[key := list.value];
      } else if value.Str? {
        entries := entries[key := [value.s]];
      }
      return Ok(());
    }
  }

  // ---------------------------------------------------------------------------
  // skip_if

  /** A word that lower-cases to `true`. */
  predicate IsTrueWord(s: string) {
    |s| == 4 && LowerChar(s[0]) == 't' && LowerChar(s[1]) == 'r' && LowerChar(s[2]) == 'u' && LowerChar(s[3]) == 'e'
  }

  /** `should_skip`: no condition never skips; otherwise the condition is
      rendered and skips exactly when it reads `true`, ignoring case and
      surrounding whitespace. A render error is passed on. */
  function ShouldSkip(skipIf: Option<string>, ctx: Context, oneOff: OneOff): (r: Result<bool, string>)
    ensures skipIf.None? ==> r == Ok(false)
    ensures skipIf.Some? ==> (r.Err? <==> oneOff(skipIf.value, ctx).Err?)
    ensures r.Ok? && skipIf.Some? ==> (r.value <==> IsTrueWord(Trim(oneOff(skipIf.value, ctx).value)))
  {
    if skipIf.None? then Ok(false)
    else
      match oneOff(skipIf.value, ctx)
      case Err(e) => Err(e)
      case Ok(s) =>
        var t := Trim(s);
        assert IsTrueWord(t) ==> AsciiLower(t) == "true" by {
          if IsTrueWord(t) {
            assert forall i :: 0 <= i < 4 ==> AsciiLower(t)[i] == "true"[i];
          }
        }
        assert AsciiLower(t) == "true" ==> IsTrueWord(t) by {
          if AsciiLower(t) == "true" {
            assert AsciiLower(t)[0] == 't' && AsciiLower(t)[1] == 'r';
            assert AsciiLower(t)[2] == 'u' && AsciiLower(t)[3] == 'e';
          }
        }
        Ok(AsciiLower(t) == "true")
  }

  /** A condition that renders to a word reading `true` in any case, with any
      whitespace around it, skips the render. */
  lemma ShouldSkipTrueWord(ctx: Context, oneOff: OneOff, cond: string, a: string, t: string, b: string)
    requires AllWhitespace(a) && AllWhitespace(b) && IsTrueWord(t)
    requires oneOff(cond, ctx) == Ok(a + t + b)
    ensures ShouldSkip(Some(cond), ctx, oneOff) == Ok(true)
  {
    TrimPadded(a, t, b);
  }

  /** A condition that renders to any other word, with any whitespace around
      it, does not skip the render. */
  lemma ShouldSkipOtherWord(ctx: Context, oneOff: OneOff, cond: string, a: string, t: string, b: string)
    requires AllWhitespace(a) && AllWhitespace(b) && !IsTrueWord(t)
    requires t != [] && !IsWhitespace(t[0]) && !IsWhitespace(t[|t| - 1])
    requires oneOff(cond, ctx) == Ok(a + t + b)
    ensures ShouldSkip(Some(cond), ctx, oneOff) == Ok(false)
  {
    TrimPadded(a, t, b);
  }

  /** The words `TRUE` and `True` read as `true`; `yes` and `truth` do not. */
  lemma TrueWords()
    ensures IsTrueWord("TRUE") && IsTrueWord("True") && !IsTrueWord("yes") && !IsTrueWord("truth")
  {
  }
}
