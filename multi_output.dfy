/** `render_multi_output`: the matrix is expanded into the cartesian product of
    its lists, each combination is bound into a copy of the template context,
    and each combination is skipped, written or checked against an existing
    file. Rendering with Tera is the `render` and `oneOff` parameters of the
    environment; the files that check mode reads are a map from path to text;
    the files written are returned as a list of (filename, contents) pairs. */
module MultiOutput {
  import opened Wrappers
  import opened IndexMaps
  import Colors
  import opened Options
  import Text

  // ---------------------------------------------------------------------------
  // Expanding the matrix

  /** One matrix key bound to one of its values. */
  type Binding = (string, string)
  type Combination = seq<Binding>

  /** The combinations that bind `key` to each of `values` in turn, each in
      front of every combination of `rest`; the first value comes first. */
  function Prefixed(key: string, values: seq<string>, rest: seq<Combination>): (cs: seq<Combination>)
    ensures |cs| == |values| * |rest|
    decreases |values|
  {
    if values == [] then []
    else
      var tail := Prefixed(key, values[1..], rest);
      assert |values| * |rest| == |rest| + (|values| - 1) * |rest|;
      seq(|rest|, i requires 0 <= i < |rest| => [(key, values[0])] + rest[i]) + tail
  }

  /** The number of combinations of `keys`: the product of their list lengths. */
  function Count(keys: seq<string>, m: Matrix): nat
    requires forall k :: k in keys ==> k in m
    decreases |keys|
  {
    if keys == [] then 1 else |m[keys[0]]| * Count(keys[1..], m)
  }

  /** `multi_cartesian_product` over the matrix's lists, in the order `keys`
      lists the keys (the order `HashMap` iteration yields them): the first key
      varies slowest, the last fastest. */
  function Product(keys: seq<string>, m: Matrix): (cs: seq<Combination>)
    requires forall k :: k in keys ==> k in m
    ensures |cs| == Count(keys, m)
    decreases |keys|
  {
    if keys == [] then [[]] else Prefixed(keys[0], m[keys[0]], Product(keys[1..], m))
  }

  /** `c` binds each of `keys`, in that order, to one of its values. */
  predicate IsCombination(c: Combination, keys: seq<string>, m: Matrix)
    requires forall k :: k in keys ==> k in m
  {
    |c| == |keys| && forall i :: 0 <= i < |c| ==> c[i].0 == keys[i] && c[i].1 in m[keys[i]]
  }

  lemma {:induction false} PrefixedMember(key: string, values: seq<string>, rest: seq<Combination>, c: Combination)
    ensures c in Prefixed(key, values, rest) <==> |c| > 0 && c[0].0 == key && c[0].1 in values && c[1..] in rest
    decreases |values|
  {
    if values != [] {
      var head := seq(|rest|, i requires 0 <= i < |rest| => [(key, values[0])] + rest[i]);
      assert Prefixed(key, values, rest) == head + Prefixed(key, values[1..], rest);
      PrefixedMember(key, values[1..], rest, c);
      if c in head {
        var i :| 0 <= i < |rest| && head[i] == c;
        assert c[1..] == rest[i];
      }
      if |c| > 0 && c[0] == (key, values[0]) && c[1..] in rest {
        var i :| 0 <= i < |rest| && rest[i] == c[1..];
        assert head[i] == c;
      }
      assert |c| > 0 ==> (c[0].1 in values <==> c[0].1 == values[0] || c[0].1 in values[1..]) by {
        if |c| > 0 && c[0].1 in values && c[0].1 != values[0] {
          var j :| 0 <= j < |values| && values[j] == c[0].1;
          assert values[1..][j - 1] == c[0].1;
        }
      }
    }
  }

  /** The expansion holds exactly the combinations of the matrix: every key
      bound once, in key order, to one of its values. */
  lemma {:induction false} ProductMember(keys: seq<string>, m: Matrix, c: Combination)
    requires forall k :: k in keys ==> k in m
    ensures c in Product(keys, m) <==> IsCombination(c, keys, m)
    decreases |keys|
  {
    if keys == [] {
      assert c in Product(keys, m) <==> c == [];
    } else {
      PrefixedMember(keys[0], m[keys[0]], Product(keys[1..], m), c);
      if |c| > 0 {
        ProductMember(keys[1..], m, c[1..]);
        if IsCombination(c[1..], keys[1..], m) && c[0].0 == keys[0] && c[0].1 in m[keys[0]] {
          forall i | 0 <= i < |c| ensures c[i].0 == keys[i] && c[i].1 in m[keys[i]] {
            if i > 0 {
              assert c[1..][i - 1] == c[i];
            }
          }
        }
        if IsCombination(c, keys, m) {
          forall i | 0 <= i < |c| - 1 ensures c[1..][i].0 == keys[1..][i] && c[1..][i].1 in m[keys[1..][i]] {
            assert c[1..][i] == c[i + 1];
          }
        }
      }
    }
  }

  /** A key with an empty list leaves nothing to render. */
  lemma {:induction false} EmptyListNoRenders(keys: seq<string>, m: Matrix, k: nat)
    requires forall k :: k in keys ==> k in m
    requires k < |keys| && m[keys[k]] == []
    ensures Product(keys, m) == []
    decreases |keys|
  {
    CountZero(keys, m, k);
  }

  lemma {:induction false} CountZero(keys: seq<string>, m: Matrix, k: nat)
    requires forall k :: k in keys ==> k in m
    requires k < |keys| && m[keys[k]] == []
    ensures Count(keys, m) == 0
    decreases |keys|
  {
    if k > 0 {
      assert keys[1..][k - 1] == keys[k];
      CountZero(keys[1..], m, k - 1);
    }
  }

  // ---------------------------------------------------------------------------
  // Flavour names

  /** `FlavorName::identifier`. */
  function FlavorIdentifier(n: Colors.FlavorName): string {
    match n
    case Latte => "latte"
    case Frappe => "frappe"
    case Macchiato => "macchiato"
    case Mocha => "mocha"
  }

  /** `FlavorName::from_str`, taking exactly the four identifiers. */
  function ParseFlavorName(s: string): (r: Option<Colors.FlavorName>)
    ensures r.Some? ==> FlavorIdentifier(r.value) == s
  {
    if s == "latte" then Some(Colors.Latte)
    else if s == "frappe" then Some(Colors.Frappe)
    else if s == "macchiato" then Some(Colors.Macchiato)
    else if s == "mocha" then Some(Colors.Mocha)
    else None
  }

  /** Every flavour name parses back from its identifier. */
  lemma ParseIdentifier(n: Colors.FlavorName)
    ensures ParseFlavorName(FlavorIdentifier(n)) == Some(n)
  {
    match n
    case Latte =>
    case Frappe => assert "frappe" != "latte";
    case Macchiato => assert "macchiato" != "latte" && "macchiato" != "frappe";
    case Mocha => assert "mocha" != "latte" && "mocha" != "frappe" && "mocha" != "macchiato";
  }

  /** The palette has a flavour under each flavour name's identifier, so
      indexing `palette.flavors` by one does not panic. */
  predicate HasAllFlavors(p: Colors.Palette) {
    forall n: Colors.FlavorName :: Get(p.flavors, FlavorIdentifier(n)).Some?
  }

  /** A palette built from base flavours that include every identifier has
      all four flavours. */
  lemma BuiltPaletteHasAllFlavors(base: seq<Colors.BaseFlavor>, overrides: Option<Colors.ColorOverrides>,
                                  render: Colors.HexRenderer, hslOf: Colors.HslOf)
    requires Colors.DistinctKeysOf(base, Colors.FlavorKey)
    requires Colors.PaletteFrom(base, overrides, render, hslOf).Ok?
    requires forall n: Colors.FlavorName :: exists j :: 0 <= j < |base| && base[j].identifier == FlavorIdentifier(n)
    ensures HasAllFlavors(Colors.PaletteFrom(base, overrides, render, hslOf).value)
  {
    Colors.PaletteContents(base, overrides, render, hslOf);
    var p := Colors.PaletteFrom(base, overrides, render, hslOf).value;
    forall n: Colors.FlavorName ensures Get(p.flavors, FlavorIdentifier(n)).Some? {
      var j :| 0 <= j < |base| && base[j].identifier == FlavorIdentifier(n);
      assert Get(p.flavors, base[j].identifier).Some?;
    }
  }

  // ---------------------------------------------------------------------------
  // Binding a combination into the context

  /** The colours of a flavour inserted into the context under each colour's
      identifier, in the flavour's order (iterating a `Flavor` yields its colours). */
  function InsertColors(ctx: Context, colors: IndexMap<Colors.Color>): (r: Context)
    ensures forall k :: k in r <==> k in ctx || exists i :: 0 <= i < |colors| && colors[i].1.identifier == k
    decreases |colors|
  {
    if colors == [] then ctx
    else
      var c := colors[0].1;
      var r := InsertColors(ctx[c.identifier := ColorCtx(c)], colors[1..]);
      assert forall i :: 1 <= i < |colors| ==> colors[i] == colors[1..][i - 1];
      r
  }

  /** A key that no colour has keeps its value. */
  lemma {:induction false} InsertColorsOther(ctx: Context, colors: IndexMap<Colors.Color>, k: string)
    requires k in ctx && forall i :: 0 <= i < |colors| ==> colors[i].1.identifier != k
    ensures InsertColors(ctx, colors)[k] == ctx[k]
    decreases |colors|
  {
    if colors != [] {
      var c := colors[0].1;
      assert forall i :: 0 <= i < |colors[1..]| ==> colors[1..][i] == colors[i + 1];
      InsertColorsOther(ctx[c.identifier := ColorCtx(c)], colors[1..], k);
    }
  }

  /** A colour's identifier is bound to the last colour that has it. */
  lemma {:induction false} InsertColorsLast(ctx: Context, colors: IndexMap<Colors.Color>, i: nat)
    requires i < |colors| && forall j :: i < j < |colors| ==> colors[j].1.identifier != colors[i].1.identifier
    ensures InsertColors(ctx, colors)[colors[i].1.identifier] == ColorCtx(colors[i].1)
    decreases |colors|
  {
    var c := colors[0].1;
    var next := ctx[c.identifier := ColorCtx(c)];
    assert forall j :: 0 <= j < |colors[1..]| ==> colors[1..][j] == colors[j + 1];
    if i == 0 {
      InsertColorsOther(next, colors[1..], c.identifier);
    } else {
      InsertColorsLast(next, colors[1..], i - 1);
    }
  }

  const FlavorNameError: string := "invalid flavor name"

  /** Binding one key: `flavor` is parsed as a flavour name and expands to the
      flavour itself under `flavor` plus each of its colours under their
      identifiers; any other key is bound to its value as a string. */
  function BindOne(ctx: Context, b: Binding, palette: Colors.Palette): (r: Result<Context, string>)
    requires HasAllFlavors(palette)
    ensures r.Err? <==> b.0 == "flavor" && ParseFlavorName(b.1).None?
    ensures r.Ok? && b.0 != "flavor" ==> r.value == ctx[b.0 := Plain(Str(b.1))]
    ensures r.Ok? && b.0 == "flavor" ==>
              var fl := Get(palette.flavors, b.1).value;
              && Get(palette.flavors, b.1).Some?
              && r.value == InsertColors(ctx["flavor" := FlavorCtx(fl)], fl.colors)
  {
    if b.0 == "flavor" then
      match ParseFlavorName(b.1)
      case None => Err(FlavorNameError)
      case Some(n) =>
        assert Get(palette.flavors, FlavorIdentifier(n)).Some?;
        var fl := Get(palette.flavors, FlavorIdentifier(n)).value;
        Ok(InsertColors(ctx["flavor" := FlavorCtx(fl)], fl.colors))
    else Ok(ctx[b.0 := Plain(Str(b.1))])
  }

  /** The bindings of a combination applied left to right; the first flavour
      name that does not parse is the error. */
  function BindAll(ctx: Context, c: Combination, palette: Colors.Palette): Result<Context, string>
    requires HasAllFlavors(palette)
    decreases |c|
  {
    if c == [] then Ok(ctx)
    else
      match BindOne(ctx, c[0], palette)
      case Err(e) => Err(e)
      case Ok(next) => BindAll(next, c[1..], palette)
  }

  /** Binding fails exactly when some `flavor` value is not a flavour name. */
  lemma {:induction false} BindAllOk(ctx: Context, c: Combination, palette: Colors.Palette)
    requires HasAllFlavors(palette)
    ensures BindAll(ctx, c, palette).Err? <==> exists i :: 0 <= i < |c| && c[i].0 == "flavor" && ParseFlavorName(c[i].1).None?
    ensures BindAll(ctx, c, palette).Err? ==> BindAll(ctx, c, palette).error == FlavorNameError
    decreases |c|
  {
    if c != [] {
      var r := BindOne(ctx, c[0], palette);
      if r.Ok? {
        BindAllOk(r.value, c[1..], palette);
        assert forall i :: 1 <= i < |c| ==> c[i] == c[1..][i - 1];
      }
    }
  }

  /** Without a `flavor` key, each key is bound to its value, the last binding
      of a key winning, and no other entry changes. */
  lemma {:induction false} BindPlain(ctx: Context, c: Combination, palette: Colors.Palette)
    requires HasAllFlavors(palette)
    requires forall i :: 0 <= i < |c| ==> c[i].0 != "flavor"
    ensures BindAll(ctx, c, palette).Ok?
    ensures var r := BindAll(ctx, c, palette).value;
            && (forall k :: k in r <==> k in ctx || exists i :: 0 <= i < |c| && c[i].0 == k)
            && (forall k :: k in ctx && (forall i :: 0 <= i < |c| ==> c[i].0 != k) ==> r[k] == ctx[k])
            && forall i :: 0 <= i < |c| && (forall j :: i < j < |c| ==> c[j].0 != c[i].0) ==> r[c[i].0] == Plain(Str(c[i].1))
    decreases |c|
  {
    if c != [] {
      var next := ctx[c[0].0 := Plain(Str(c[0].1))];
      var rest := c[1..];
      assert BindOne(ctx, c[0], palette) == Ok(next);
      assert forall i :: 0 <= i < |rest| ==> rest[i] == c[i + 1];
      BindPlain(next, rest, palette);
      var r := BindAll(next, rest, palette).value;
      forall k ensures k in r <==> k in ctx || exists i :: 0 <= i < |c| && c[i].0 == k {
        if exists i :: 0 <= i < |c| && c[i].0 == k {
          var i :| 0 <= i < |c| && c[i].0 == k;
          if i > 0 {
            assert rest[i - 1].0 == k;
          }
        }
      }
      forall k | k in ctx && (forall i :: 0 <= i < |c| ==> c[i].0 != k)
        ensures r[k] == ctx[k]
      {
        assert c[0].0 != k;
      }
      forall i | 0 <= i < |c| && (forall j :: i < j < |c| ==> c[j].0 != c[i].0)
        ensures r[c[i].0] == Plain(Str(c[i].1))
      {
        if i > 0 {
          assert rest[i - 1] == c[i];
        }
      }
    }
  }

  /** The loop of `render_multi_output` that binds one combination into a
      copy of the context, with the inner loop over the flavour's colours. */
  method Bind(ctx: Context, c: Combination, palette: Colors.Palette) returns (r: Result<Context, string>)
    requires HasAllFlavors(palette)
    ensures r == BindAll(ctx, c, palette)
  {
    var cur := ctx;
    for i := 0 to |c|
      invariant BindAll(ctx, c, palette) == BindAll(cur, c[i..], palette)
    {
      assert c[i..][0] == c[i] && c[i..][1..] == c[i + 1..];
      var (key, value) := c[i];
      if key == "flavor" {
        var name := ParseFlavorName(value);
        if name.None? {
          return Err(FlavorNameError);
        }
        var fl := Get(palette.flavors, FlavorIdentifier(name.value)).value;
        var start := cur["flavor" := FlavorCtx(fl)];
        cur := start;
        for j := 0 to |fl.colors|
          invariant InsertColors(start, fl.colors) == InsertColors(cur, fl.colors[j..])
        {
          assert fl.colors[j..][0] == fl.colors[j] && fl.colors[j..][1..] == fl.colors[j + 1..];
          var color := fl.colors[j].1;
          cur := cur[color.identifier := ColorCtx(color)];
        }
        assert fl.colors[|fl.colors|..] == [];
      } else {
        cur := cur[key := Plain(Str(value))];
      }
    }
    assert c[|c|..] == [];
    return Ok(cur);
  }

  // ---------------------------------------------------------------------------
  // Rendering, writing and checking

  /** `CheckResult`. */
  datatype CheckResult = Pass | Fail

  /** `check_result_with_file`: a file that cannot be read is an error;
      otherwise the check passes exactly when the file holds the result. */
  function CheckFile(files: map<string, string>, path: string, result: string): (r: Result<CheckResult, string>)
    ensures r.Err? <==> path !in files
    ensures r.Ok? ==> (r.value == Pass <==> files[path] == result)
  {
    if path !in files then Err("Check mode failed") else if result == files[path] then Ok(Pass) else Ok(Fail)
  }

  /** What one combination comes to: skipped, or rendered to a result and a
      filename. */
  datatype Step = Skipped | Rendered(filename: string, result: string)

  /** Everything a multi-output render depends on besides the matrix. */
  datatype Env = Env(
    ctx: Context, palette: Colors.Palette, skipIf: Option<string>, check: bool,
    files: map<string, string>, oneOff: OneOff, render: Context -> Result<string, string>)

  predicate EnvValid(env: Env) {
    HasAllFlavors(env.palette)
  }

  /** The body of the loop of `render_multi_output` up to writing or checking:
      bind, test `skip_if`, render the template, render the filename. */
  function Produce(env: Env, filenameTemplate: string, c: Combination): (r: Result<Step, string>)
    requires EnvValid(env)
  {
    match BindAll(env.ctx, c, env.palette)
    case Err(e) => Err(e)
    case Ok(ctx) =>
      match ShouldSkip(env.skipIf, ctx, env.oneOff)
      case Err(e) => Err(e)
      case Ok(skip) =>
        if skip then Ok(Skipped)
        else
          match env.render(ctx)
          case Err(_) => Err("Main template render failed")
          case Ok(result) =>
            match env.oneOff(filenameTemplate, ctx)
            case Err(_) => Err("Filename template render failed")
            case Ok(filename) => Ok(Rendered(filename, result))
  }

  /** `keys` is an iteration order of the matrix: every matrix key exactly
      once. */
  predicate IterationOrder(keys: seq<string>, m: Matrix) {
    && (forall i, j :: 0 <= i < j < |keys| ==> keys[i] != keys[j])
    && (forall k :: k in m ==> k in keys)
    && (forall i :: 0 <= i < |keys| ==> keys[i] in m)
  }

  /** Every combination of the expansion binds each key of the matrix exactly
      once, to one of that key's values, and binds nothing else. */
  lemma CombinationsBindEveryKey(keys: seq<string>, m: Matrix, c: Combination)
    requires IterationOrder(keys, m)
    requires c in Product(keys, m)
    ensures forall k :: k in m ==> exists i :: 0 <= i < |c| && c[i].0 == k
    ensures forall i, j :: 0 <= i < j < |c| ==> c[i].0 != c[j].0
    ensures forall i :: 0 <= i < |c| ==> c[i].0 in m && c[i].1 in m[c[i].0]
  {
    ProductMember(keys, m, c);
    forall k | k in m ensures exists i :: 0 <= i < |c| && c[i].0 == k {
      var i :| 0 <= i < |keys| && keys[i] == k;
      assert c[i].0 == k;
    }
  }

  lemma FirstKeyInMatrix(keys: seq<string>, m: Matrix)
    requires keys != [] && IterationOrder(keys, m)
    ensures keys[0] in m
  {
  }

  /** An empty matrix expands to one empty combination, so the template is
      rendered once with the plain context. */
  lemma EmptyMatrixRendersOnce(keys: seq<string>)
    requires IterationOrder(keys, map[])
    ensures Product(keys, map[]) == [[]]
  {
    if keys != [] {
      FirstKeyInMatrix(keys, map[]);
      assert false;
    }
  }

  /** The files written so far, the check results so far, and the error that
      ended the loop, if any. */
  datatype RunState = RunState(written: seq<(string, string)>, checks: seq<CheckResult>, error: Option<string>)

  const Start := RunState([], [], None)

  /** One turn of the loop: a skipped combination changes nothing; a rendered
      one is checked in check mode and written otherwise. */
  function StepRun(env: Env, filenameTemplate: string, s: RunState, c: Combination): RunState
    requires EnvValid(env)
  {
    match Produce(env, filenameTemplate, c)
    case Err(e) => s.(error := Some(e))
    case Ok(Skipped) => s
    case Ok(Rendered(f, result)) =>
      if env.check then
        match CheckFile(env.files, f, result)
        case Err(e) => s.(error := Some(e))
        case Ok(cr) => s.(checks := s.checks + [cr])
      else s.(written := s.written + [(f, result)])
  }

  /** The loop over the combinations, which stops at the first error. */
  function RunFrom(env: Env, filenameTemplate: string, s: RunState, cs: seq<Combination>): RunState
    requires EnvValid(env)
    decreases |cs|
  {
    if cs == [] || s.error.Some? then s else RunFrom(env, filenameTemplate, StepRun(env, filenameTemplate, s, cs[0]), cs[1..])
  }

  /** How the process ends: normally, with exit status 1 because a check
      failed, or with an error. */
  datatype Outcome = Finished | ExitFailure | Failed(message: string)

  function OutcomeOf(s: RunState): (o: Outcome)
    ensures o == ExitFailure <==> s.error.None? && Fail in s.checks
    ensures o.Failed? <==> s.error.Some?
  {
    if s.error.Some? then Failed(s.error.value) else if Fail in s.checks then ExitFailure else Finished
  }

  const NoFilenameTemplate: string := "Filename template is required for multi-output render"

  /** A multi-output render: without a filename template it is an error before
      anything is rendered; otherwise the loop runs over the whole expansion. */
  function MultiOutput(keys: seq<string>, matrix: Matrix, filenameTemplate: Option<string>, env: Env)
    : (r: (Outcome, seq<(string, string)>))
    requires EnvValid(env)
    requires IterationOrder(keys, matrix)
    ensures filenameTemplate.None? ==> r == (Failed(NoFilenameTemplate), [])
  {
    if filenameTemplate.None? then (Failed(NoFilenameTemplate), [])
    else
      var s := RunFrom(env, filenameTemplate.value, Start, Product(keys, matrix));
      (OutcomeOf(s), s.written)
  }

  /** `render_multi_output`, with the filename-template test in front of it.
      `keys` is the matrix's keys in iteration order. */
  method RenderMultiOutput(keys: seq<string>, matrix: Matrix, filenameTemplate: Option<string>, env: Env)
    returns (outcome: Outcome, written: seq<(string, string)>)
    requires EnvValid(env)
    requires IterationOrder(keys, matrix)
    ensures (outcome, written) == MultiOutput(keys, matrix, filenameTemplate, env)
  {
    if filenameTemplate.None? {
      return Failed(NoFilenameTemplate), [];
    }
    outcome, written := RunCombinations(env, filenameTemplate.value, Product(keys, matrix));
  }

  /** The loop of `render_multi_output` over the expanded combinations: bind,
      test the skip condition, render, then check or write; the first error
      ends it, and a failed check turns a normal end into exit status 1. */
  method RunCombinations(env: Env, template: string, iterables: seq<Combination>)
    returns (outcome: Outcome, written: seq<(string, string)>)
    requires EnvValid(env)
    ensures var s := RunFrom(env, template, Start, iterables); outcome == OutcomeOf(s) && written == s.written
  {
    var checks: seq<CheckResult> := [];
    written := [];
    for i := 0 to |iterables|
      invariant RunFrom(env, template, Start, iterables) == RunFrom(env, template, RunState(written, checks, None), iterables[i..])
    {
      assert iterables[i..][0] == iterables[i] && iterables[i..][1..] == iterables[i + 1..];
      var s := RunState(written, checks, None);
      var ctx := Bind(env.ctx, iterables[i], env.palette);
      if ctx.Err? {
        assert StepRun(env, template, s, iterables[i]) == s.(error := Some(ctx.error));
        return Failed(ctx.error), written;
      }
      var skip := ShouldSkip(env.skipIf, ctx.value, env.oneOff);
      if skip.Err? {
        assert StepRun(env, template, s, iterables[i]) == s.(error := Some(skip.error));
        return Failed(skip.error), written;
      }
      if skip.value {
        continue;
      }
      var result := env.render(ctx.value);
      if result.Err? {
        return Failed("Main template render failed"), written;
      }
      var filename := env.oneOff(template, ctx.value);
      if filename.Err? {
        return Failed("Filename template render failed"), written;
      }
      if env.check {
        var cr := CheckFile(env.files, filename.value, result.value);
        if cr.Err? {
          assert StepRun(env, template, s, iterables[i]) == s.(error := Some(cr.error));
          return Failed(cr.error), written;
        }
        checks := checks + [cr.value];
      } else {
        written := written + [(filename.value, result.value)];
      }
    }
    assert iterables[|iterables|..] == [];
    if Fail in checks {
      outcome := ExitFailure;
    } else {
      outcome := Finished;
    }
  }

  // ---------------------------------------------------------------------------
  // Properties of the loop

  /** The outputs rendered for the combinations, in order, skipped ones left out. */
  function Renders(env: Env, filenameTemplate: string, cs: seq<Combination>): seq<(string, string)>
    requires EnvValid(env)
    decreases |cs|
  {
    if cs == [] then []
    else
      var rest := Renders(env, filenameTemplate, cs[1..]);
      match Produce(env, filenameTemplate, cs[0])
      case Ok(Rendered(f, result)) => [(f, result)] + rest
      case _ => rest
  }

  /** Each combination binds, tests, renders and names without error, and in
      check mode each named file exists. */
  predicate Fine(env: Env, filenameTemplate: string, c: Combination)
    requires EnvValid(env)
  {
    var p := Produce(env, filenameTemplate, c);
    p.Ok? && (env.check && p.value.Rendered? ==> p.value.filename in env.files)
  }

  predicate AllFine(env: Env, filenameTemplate: string, cs: seq<Combination>)
    requires EnvValid(env)
  {
    forall i :: 0 <= i < |cs| ==> Fine(env, filenameTemplate, cs[i])
  }

  /** The check result of each rendered output against its file. */
  function Compare(files: map<string, string>, rs: seq<(string, string)>): (crs: seq<CheckResult>)
    requires forall i :: 0 <= i < |rs| ==> rs[i].0 in files
    ensures |crs| == |rs| && forall i :: 0 <= i < |rs| ==> (crs[i] == Pass <==> files[rs[i].0] == rs[i].1)
  {
    seq(|rs|, i requires 0 <= i < |rs| => if files[rs[i].0] == rs[i].1 then Pass else Fail)
  }

  lemma AllFineTail(env: Env, filenameTemplate: string, cs: seq<Combination>)
    requires EnvValid(env) && cs != []
    ensures AllFine(env, filenameTemplate, cs) <==>
              Fine(env, filenameTemplate, cs[0]) && AllFine(env, filenameTemplate, cs[1..])
  {
    assert forall i :: 1 <= i < |cs| ==> cs[i] == cs[1..][i - 1];
  }

  /** One turn ends without an error exactly when its combination is fine;
      then a skipped combination changes nothing and a rendered one adds its
      check result in check mode and its output in write mode. */
  lemma StepFine(env: Env, filenameTemplate: string, s: RunState, c: Combination)
    requires EnvValid(env) && s.error.None?
    ensures StepRun(env, filenameTemplate, s, c).error.None? <==> Fine(env, filenameTemplate, c)
    ensures Fine(env, filenameTemplate, c) ==>
              var p := Produce(env, filenameTemplate, c).value;
              var t := StepRun(env, filenameTemplate, s, c);
              if p.Skipped? then t == s
              else
                var e := (p.filename, p.result);
                if env.check then e.0 in env.files && t == s.(checks := s.checks + Compare(env.files, [e]))
                else t == s.(written := s.written + [e])
  {
    var p := Produce(env, filenameTemplate, c);
    if p.Ok? && p.value.Rendered? && env.check && p.value.filename in env.files {
      var e := (p.value.filename, p.value.result);
      assert Compare(env.files, [e]) == [CheckFile(env.files, e.0, e.1).value];
    }
  }

  /** The loop ends without an error exactly when every combination is fine. */
  lemma {:induction false} RunFromError(env: Env, filenameTemplate: string, s: RunState, cs: seq<Combination>)
    requires EnvValid(env) && s.error.None?
    ensures RunFrom(env, filenameTemplate, s, cs).error.None? <==> AllFine(env, filenameTemplate, cs)
    decreases |cs|
  {
    if cs != [] {
      AllFineTail(env, filenameTemplate, cs);
      StepFine(env, filenameTemplate, s, cs[0]);
      var next := StepRun(env, filenameTemplate, s, cs[0]);
      if next.error.None? {
        RunFromError(env, filenameTemplate, next, cs[1..]);
      }
    }
  }

  /** When every combination is fine, write mode has written every rendered
      output once, in order, and check mode has written nothing and checked
      every rendered output once, in order. */
  lemma {:induction false} RunFromFine(env: Env, filenameTemplate: string, s: RunState, cs: seq<Combination>)
    requires EnvValid(env) && s.error.None? && AllFine(env, filenameTemplate, cs)
    ensures var t := RunFrom(env, filenameTemplate, s, cs);
            var rs := Renders(env, filenameTemplate, cs);
            if env.check then
              (forall i :: 0 <= i < |rs| ==> rs[i].0 in env.files) &&
              t.written == s.written && t.checks == s.checks + Compare(env.files, rs)
            else t.written == s.written + rs && t.checks == s.checks
    decreases |cs|
  {
    if cs == [] {
      assert s.checks + [] == s.checks && s.written + [] == s.written;
    } else {
      AllFineTail(env, filenameTemplate, cs);
      StepFine(env, filenameTemplate, s, cs[0]);
      var next := StepRun(env, filenameTemplate, s, cs[0]);
      RunFromFine(env, filenameTemplate, next, cs[1..]);
      var p := Produce(env, filenameTemplate, cs[0]).value;
      var rs := Renders(env, filenameTemplate, cs[1..]);
      if p.Rendered? {
        var e := (p.filename, p.result);
        assert Renders(env, filenameTemplate, cs) == [e] + rs;
        if env.check {
          assert Compare(env.files, [e] + rs) == Compare(env.files, [e]) + Compare(env.files, rs);
          Text.SeqAssoc(s.checks, Compare(env.files, [e]), Compare(env.files, rs));
        } else {
          Text.SeqAssoc(s.written, [e], rs);
        }
      } else {
        assert Renders(env, filenameTemplate, cs) == rs;
      }
    }
  }


  /** Check mode: when every combination is fine, nothing is written and the
      process exits with a failure exactly when some rendered output differs
      from the file it names. */
  lemma CheckModeOutcome(keys: seq<string>, matrix: Matrix, filenameTemplate: string, env: Env)
    requires EnvValid(env) && env.check
    requires IterationOrder(keys, matrix)
    requires AllFine(env, filenameTemplate, Product(keys, matrix))
    ensures var (o, written) := MultiOutput(keys, matrix, Some(filenameTemplate), env);
            var rs := Renders(env, filenameTemplate, Product(keys, matrix));
            && written == []
            && (forall i :: 0 <= i < |rs| ==> rs[i].0 in env.files)
            && (o == ExitFailure <==> SomeDiffers(env.files, rs))
            && (o == Finished <==> !SomeDiffers(env.files, rs))
  {
    var cs := Product(keys, matrix);
    RunFromError(env, filenameTemplate, Start, cs);
    RunFromFine(env, filenameTemplate, Start, cs);
    var t := RunFrom(env, filenameTemplate, Start, cs);
    var rs := Renders(env, filenameTemplate, cs);
    assert t.error.None? && t.written == [];
    assert t.checks == Compare(env.files, rs) by {
      assert [] + Compare(env.files, rs) == Compare(env.files, rs);
    }
    CompareFail(env.files, rs);
    var o := OutcomeOf(t);
    assert o == ExitFailure <==> Fail in t.checks;
    assert MultiOutput(keys, matrix, Some(filenameTemplate), env) == (o, t.written);
  }

  /** Some rendered output differs from the file it names. */
  predicate SomeDiffers(files: map<string, string>, rs: seq<(string, string)>)
    requires forall i :: 0 <= i < |rs| ==> rs[i].0 in files
  {
    exists i :: 0 <= i < |rs| && files[rs[i].0] != rs[i].1
  }

  /** Some check fails exactly when some rendered output differs from its file. */
  lemma CompareFail(files: map<string, string>, rs: seq<(string, string)>)
    requires forall i :: 0 <= i < |rs| ==> rs[i].0 in files
    ensures Fail in Compare(files, rs) <==> SomeDiffers(files, rs)
  {
    var crs := Compare(files, rs);
    if Fail in crs {
      var i :| 0 <= i < |crs| && crs[i] == Fail;
      assert files[rs[i].0] != rs[i].1;
    }
    if SomeDiffers(files, rs) {
      var i :| 0 <= i < |rs| && files[rs[i].0] != rs[i].1;
      assert crs[i] == Fail;
    }
  }

  /** Write mode: when every combination is fine, the render finishes and has
      written exactly the rendered outputs, in combination order. */
  lemma WriteModeOutcome(keys: seq<string>, matrix: Matrix, filenameTemplate: string, env: Env)
    requires EnvValid(env) && !env.check
    requires IterationOrder(keys, matrix)
    ensures var (o, written) := MultiOutput(keys, matrix, Some(filenameTemplate), env);
            (o.Failed? <==> !AllFine(env, filenameTemplate, Product(keys, matrix))) &&
            (!o.Failed? ==> o == Finished && written == Renders(env, filenameTemplate, Product(keys, matrix)))
  {
    RunFromError(env, filenameTemplate, Start, Product(keys, matrix));
    if AllFine(env, filenameTemplate, Product(keys, matrix)) {
      RunFromFine(env, filenameTemplate, Start, Product(keys, matrix));
    }
    assert [] + Renders(env, filenameTemplate, Product(keys, matrix)) == Renders(env, filenameTemplate, Product(keys, matrix));
  }

  /** Every rendered output comes from a combination of the matrix that was
      not skipped. */
  lemma {:induction false} RendersFromCombinations(env: Env, filenameTemplate: string, cs: seq<Combination>, k: nat)
    requires EnvValid(env) && k < |Renders(env, filenameTemplate, cs)|
    ensures exists i :: 0 <= i < |cs| && Produce(env, filenameTemplate, cs[i]) == Ok(Rendered(Renders(env, filenameTemplate, cs)[k].0, Renders(env, filenameTemplate, cs)[k].1))
    decreases |cs|
  {
    var rs := Renders(env, filenameTemplate, cs);
    var rest := Renders(env, filenameTemplate, cs[1..]);
    var p := Produce(env, filenameTemplate, cs[0]);
    if p.Ok? && p.value.Rendered? {
      if k == 0 {
        assert rs[0] == (p.value.filename, p.value.result);
        assert Produce(env, filenameTemplate, cs[0]) == Ok(Rendered(rs[k].0, rs[k].1));
      } else {
        assert rs[k] == rest[k - 1];
        RendersFromCombinations(env, filenameTemplate, cs[1..], k - 1);
        var i :| 0 <= i < |cs[1..]| && Produce(env, filenameTemplate, cs[1..][i]) == Ok(Rendered(rest[k - 1].0, rest[k - 1].1));
        assert cs[1..][i] == cs[i + 1];
        assert Produce(env, filenameTemplate, cs[i + 1]) == Ok(Rendered(rs[k].0, rs[k].1));
      }
    } else {
      assert rs == rest;
      RendersFromCombinations(env, filenameTemplate, cs[1..], k);
      var i :| 0 <= i < |cs[1..]| && Produce(env, filenameTemplate, cs[1..][i]) == Ok(Rendered(rest[k].0, rest[k].1));
      assert cs[1..][i] == cs[i + 1];
      assert Produce(env, filenameTemplate, cs[i + 1]) == Ok(Rendered(rs[k].0, rs[k].1));
    }
  }
}
