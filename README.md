# whiskers, modelled in Dafny

whiskers renders Tera templates against the Catppuccin palette. This project
models its core and proves properties of that model:

- **The colour model** (`colors.dfy`, module `Colors`) covers the following.
  - The 24-bit, unsigned 32-bit and signed 32-bit integer forms of a colour.
  - The table of two-digit hex components that a hex format is rendered from.
  - Parsing a hex colour override with `u32::from_str_radix`.
  - Saturating opacity arithmetic.
  - `build_palette`, which turns the four catppuccin flavours into `IndexMap`s of
    colours. A per-flavour override beats the `all` override, which beats the
    base colour.
- **Insertion-ordered maps** (`indexmap.dfy`, module `IndexMaps`) model the
  `IndexMap<String, _>` the palette is stored in.
- **Markdown output** (`markdown.dfy`, module `Markdown`) models
  `display_as_list` and `display_as_table`. The table pads every column to its
  widest cell.
- **Template options** (`options.dfy`, module `Options`) cover three things.
  - How the hex format is derived from `hex_format`, `hex_prefix` and
    `capitalize_hex`.
  - `override_matrix`, as a `TemplateMatrix` class whose entries the method
    replaces in place.
  - The `skip_if` test.
- **Multi-output rendering** (`multi_output.dfy`, module `MultiOutput`) models
  `render_multi_output`.
  - The matrix is expanded into its cartesian product.
  - Each combination is bound into a copy of the context. A `flavor` value
    brings in the flavour and its colours.
  - Each combination is then skipped, written, or checked against an existing
    file. Check mode ends with exit status 1 when some file differs.
- **The CSS filter generator** (`css_filter.dfy`, module `CssFilter`) covers
  the following.
  - The `FilterColor` transforms, as a class whose channels every transform
    keeps in [0, 1].
  - The chain of six filters applied to black.
  - `fix`, which clamps the values and wraps the hue.
  - The CSS serialisation.
  - The deterministic seed.
  - The SPSA loop (simultaneous perturbation stochastic approximation) with its
    best-result tracking, and the wide and narrow searches.
  - The in-memory cache of filter strings, as a class.
- **Shared helpers** (`text.dfy`, module `Text`; `wrappers.dfy`, module
  `Wrappers`): `str::trim`, `join`, `split`, ASCII case mapping, decimal
  printing, `Option` and `Result`.

The model follows the source's own form:

- The pure conversions are functions.
- The loops are methods, each proved equal to a function that specifies it.
- State updated in place is a class: `FilterColor`, the template matrix and the
  filter cache.

Rendering with Tera, serde deserialisation, the css_colors HSL conversion,
trigonometry, the random number generator and the file system are all
parameters of the model.

The CSS filter solver in `src/css_filter.rs` works as follows:

- It computes in `f32`/`f64` arithmetic.
- It uses the platform's `sin`/`cos`.
- Its loss sums RGB and HSL distances (lines 330-352).
- Every wide-search attempt starts from one fixed point (line 264).
- It stops early once the loss is at most 5.0 (line 261).

It also reseeds the random number generator on every `spsa` call (line 296), so
the ten attempts of `solve_wide` are identical. `CssFilter.SolveWideIsOneRun`
proves this.

`display_as_table` indexes `row[i]` for every heading and `headings[i]` for
every cell, so each row must have exactly one cell per heading. The model
requires that (`WellShaped`).

## Model

| member | source | states |
|---|---|---|
| Colors.NewRgb | src/models.rs:540-548 | `RGB::new` keeps the three channels and sets `channels` to `[r, g, b]` |
| Colors.RgbToInts | src/models.rs:132-144 | int24 is `0xRRGGBB` (< 2^24); uint32 is `0xAARRGGBB` with alpha defaulting to 0xFF; sint32 is the same 32 bits read as two's complement (in i32 range, congruent to uint32 modulo 2^32); sint32 is negative exactly when alpha >= 0x80 |
| Colors.IntsRoundTrip | src/models.rs:132-144 | the four bytes come back out of uint32 in order a, r, g, b, and sint32 wraps back to uint32 |
| Colors.LatteRedInts | tests/cli.rs:54-64 | Latte red (210, 15, 57) encodes as 13766457, 4291956537 and -3010759, as the formats test expects |
| Colors.Hex2 | src/models.rs:116-124 | `{x:02x}` / `{x:02X}` is two hex digits of the chosen case that read back as x |
| Colors.Hex2Upper | src/models.rs:116-125 | the uppercase component is the lowercase one upper-cased |
| Colors.HexComponents | src/models.rs:112-130 | the table has exactly the keys r g b a z R G B A Z; each lowercase key is the channel's two digits and each uppercase key its upper-casing; z and Z are empty exactly when alpha is 0xFF, and equal a and A otherwise |
| Colors.ParseHexU32 | src/models.rs:147 | `from_str_radix(s, 16)` succeeds exactly on an optional `+` followed by hex digits whose value fits in 32 bits, and returns that value; an empty string is `Empty`, a lone sign is `InvalidDigit`, and digits that are too large are `PosOverflow` |
| Colors.ParseSixDigits | src/models.rs:146-152 | six digits printed from (r, g, b) in either case parse back to `r*65536 + g*256 + b` |
| Colors.OverrideRgb | src/models.rs:148-152 | the channels taken from an override are bytes 2, 1 and 0 of the parsed value, so they read back as its low 24 bits |
| Colors.ColorFromHexOverride | src/models.rs:146-173 | a parse failure is returned as `ParseHex`; otherwise the override succeeds exactly when the hex format renders its channels, and fails with that format error when it does not; on success the channels are the low 24 bits of the parsed value, the HSL is computed from those channels, the opacity is 0xFF, the integers and hex agree with the channels, and name, identifier, order and accent come from the blueprint |
| Colors.OverrideRoundTrip | src/models.rs:146-155 | an override written as `rrggbb` gives back exactly those channels |
| Colors.Round | src/models.rs:190 | `f64::round` lies within one half of x, with halves away from zero; `css` at src/css_filter.rs:212-222 uses the same rounding |
| Colors.SatU16 | src/models.rs:190 | `as u16` saturates at 0 and 0xFFFF and keeps values in range |
| Colors.HslFromBase | src/models.rs:189-193 | the stored hue is a u16 within one half of catppuccin's hue (0 for a negative hue); saturation and lightness are kept |
| Colors.HueOnWheel | src/models.rs:189-193 | a hue in [0, 360) is stored as a whole degree in [0, 360], and as 360 exactly when it is at least 359.5 |
| Colors.ColorFromCatppuccin | src/models.rs:175-196 | fails exactly when the hex format fails, with that format error; keeps channels and identity; the HSL is catppuccin's with the hue rounded to a u16 (`HslFromBase`); opacity is 255; integers and hex agree with the channels |
| Colors.AnsiColorFromCatppuccin | src/models.rs:198-217 | fails exactly when the hex format fails, with that format error; keeps channels, name, identifier and code; the HSL is catppuccin's with the hue rounded to a u16 (`HslFromBase`); integers and hex agree |
| Colors.AnsiPairFromCatppuccin | src/models.rs:219-229 | succeeds exactly when both colours convert; the normal colour's error comes first; keeps name, identifier and order |
| Colors.MakeColor | src/models.rs:233-259 | the colour succeeds exactly when each present override converts and the base colour converts; it is then the flavour override if there is one, else the `all` override if there is one, else the base colour; on failure the error is the flavour override's, else the `all` override's, else the base colour's, even when the failing one would not have been chosen; the result is consistent, opaque and keeps the colour's identity |
| Colors.CollectLoop | src/models.rs:261-285 | each per-flavour insertion loop returns the specification `Collect`: entries converted and inserted in order, stopping at the first error |
| Colors.BuildPalette | src/models.rs:231-303 | the nested loops of `build_palette` return `PaletteFrom`, flavour by flavour |
| Colors.CollectOk | src/models.rs:261-285 | a loop succeeds exactly when every conversion does |
| Colors.CollectFirstError | src/models.rs:264-269 | a failed loop reports the error of the first failing entry |
| Colors.CollectUntouched | src/models.rs:264-269 | keys outside the converted entries keep their values |
| Colors.CollectKeys | src/models.rs:261-269 | with distinct identifiers, the keys appear in base order |
| Colors.CollectGet | src/models.rs:264-269 | with distinct identifiers, each identifier maps to its own converted entry |
| Colors.CollectAll | src/models.rs:261-269 | a property of every converted entry holds of every value in the map |
| Colors.PaletteLightIsNotDark | src/models.rs:287-302 | the palette builds exactly when every flavour does, and every built flavour has `light == !dark` |
| Colors.PaletteContents | src/models.rs:287-302 | the palette lists the flavours in base order, each under its identifier and equal to its built flavour |
| Colors.FlavorContents | src/models.rs:261-299 | a flavour keeps the base flavour's identity, has `light == !dark`, lists its colours in order, and holds the colour `make_color` chose for each |
| Colors.FlavorOk | src/models.rs:261-285 | a flavour fails exactly when one of its colours, ANSI colours or ANSI pairs fails |
| Colors.ModOpacity | src/models.rs:456-467 | the opacity becomes the amount; integers and hex are recomputed for it; every other field is unchanged |
| Colors.AddOpacity | src/models.rs:469-481 | the opacity rises by the amount and stops at 255; every other field is unchanged; the result is consistent |
| Colors.SubOpacity | src/models.rs:483-495 | the opacity falls by the amount and stops at 0; every other field is unchanged; the result is consistent |
| Colors.ModOpacityOwn | src/models.rs:456-467 | setting a consistent colour's own opacity gives the colour back |
| Colors.AddThenSubOpacity | src/models.rs:469-495 | adding an amount that does not saturate, then subtracting it, gives the colour back, hex and integers included |
| Colors.SubThenAddOpacity | src/models.rs:469-495 | subtracting an amount that does not saturate, then adding it, gives the colour back |
| IndexMaps.InsertGet | src/models.rs:265-268 | after `insert` the key maps to the new value and every other key is unchanged |
| IndexMaps.InsertKeys | src/models.rs:265-268 | `insert` keeps the position of a present key and appends an absent key; distinct keys stay distinct |
| IndexMaps.InsertEntries | src/models.rs:265-268 | every entry after an insertion is the new entry or an old one |
| Text.TrimPadded | src/main.rs:619 | `trim` strips exactly the surrounding whitespace from a word that neither starts nor ends with whitespace |
| Text.SplitJoin | src/css_filter.rs:214 | splitting a join on its separator gives the parts back when no part contains the separator |
| Text.IntToString | src/css_filter.rs:213-221 | `{}` on an integer prints a minus sign exactly when it is negative, followed by digits without leading zeros whose value is its magnitude |
| Text.NatToStringValue | src/css_filter.rs:213-221 | printed digits read back as the number |
| Markdown.DisplayAsListLines | src/markdown.rs:11-14 | the list reads as the heading, a blank line, then one bullet per item (one empty line when there are no items) |
| Markdown.ByteLen | src/markdown.rs:28-29 | `str::len` counts UTF-8 bytes, never fewer than the characters |
| Markdown.AsciiByteLen | src/markdown.rs:28-29 | for ASCII text the byte length is the character count |
| Markdown.ColumnWidth | src/markdown.rs:25-32 | a column's width is at least its heading and every cell in it, and equals one of them |
| Markdown.Widths | src/markdown.rs:21-34 | one width per heading, each bounding the heading and all cells of its column |
| Markdown.PadRight | src/markdown.rs:45 | `{s:<w$}` keeps s and pads it with spaces to w characters, if it is shorter |
| Markdown.DisplayAsTable | src/markdown.rs:16-75 | the method returns the specified `TableText`: the section heading, a blank line and the table lines, trimmed |
| Markdown.TrimTable | src/markdown.rs:74 | trimming the written table removes only the final newline |
| Markdown.PaddedToWidth | src/markdown.rs:25-68 | every padded heading and cell is exactly as wide as its column |
| Markdown.AsciiWidthIsTight | src/markdown.rs:25-32 | for ASCII text a column is exactly as wide as its widest entry |
| Markdown.LinesSameLength | src/markdown.rs:39-72 | all lines of the table have the same length |
| Markdown.TableTextLines | src/markdown.rs:16-75 | read line by line: the heading, a blank line, the heading row, the separator, then the rows in input order |
| Options.DeriveHexFormat | src/main.rs:66-87 | an explicit `hex_format` is used verbatim; otherwise the prefix (empty by default) followed by `{{r}}{{g}}{{b}}{{z}}`, upper-cased when `capitalize_hex` is set |
| Options.FromFrontmatter | src/main.rs:39-109 | without a `whiskers` section every option is absent and the hex format is the default; otherwise it fails exactly when decoding fails, and carries the decoded options with the derived hex format |
| Options.CapitalizedHexFormat | src/main.rs:80-84 | `#` with `capitalize_hex` gives `#{{R}}{{G}}{{B}}{{Z}}` |
| Options.PrefixedHexFormat | src/main.rs:80-86 | `#` alone gives `#{{r}}{{g}}{{b}}{{z}}` |
| Options.StringsOf | src/main.rs:264-268 | a list gives its strings exactly when every element is a string |
| Options.OverrideMatrix | src/main.rs:253-278 | an absent key changes nothing; a list of strings replaces the key's values with that list; a list holding anything else is the only error; a string becomes a one-element list; any other value changes nothing; no other key changes |
| Options.TemplateMatrix.Override | src/main.rs:253-278 | the in-place update leaves the matrix `OverrideMatrix` describes, and leaves it untouched on an error |
| Options.ShouldSkip | src/main.rs:615-620 | no condition never skips; a render error is passed on; otherwise it skips exactly when the trimmed render reads `true` in any case |
| Options.ShouldSkipTrueWord | src/main.rs:619 | `true` in any case, with any whitespace around it, skips |
| Options.ShouldSkipOtherWord | src/main.rs:619 | any other word, with any whitespace around it, does not skip |
| Options.TrueWords | src/main.rs:619 | `TRUE` and `True` read as true; `yes` and `truth` do not |
| MultiOutput.Prefixed | src/main.rs:563-567 | prefixing gives one combination per value for each rest combination |
| MultiOutput.Product | src/main.rs:563-567 | the number of combinations is the product of the list lengths |
| MultiOutput.PrefixedMember | src/main.rs:563-567 | a combination is in the prefixed list exactly when its head binds the key to one of the values and its tail is a rest combination |
| MultiOutput.ProductMember | src/main.rs:563-567 | a combination is produced exactly when it binds each of the given keys once, in key order, to one of that key's values |
| MultiOutput.CombinationsBindEveryKey | src/main.rs:563-567 | when the keys are an iteration order of the matrix, every produced combination binds each matrix key exactly once, to one of that key's values, and binds nothing else |
| MultiOutput.EmptyMatrixRendersOnce | src/main.rs:563-567 | an empty matrix expands to one empty combination, so the template renders once |
| MultiOutput.EmptyListNoRenders | src/main.rs:563-570 | a key with an empty list leaves nothing to render |
| MultiOutput.CountZero | src/main.rs:563-567 | a key with an empty list makes the count zero |
| MultiOutput.ParseFlavorName | src/main.rs:577 | a parsed name is the flavour with that identifier |
| MultiOutput.ParseIdentifier | src/main.rs:577-578 | every flavour parses back from its identifier |
| MultiOutput.BuiltPaletteHasAllFlavors | src/main.rs:578 | a palette built from flavours that cover all four identifiers can be indexed by any of them |
| MultiOutput.InsertColors | src/main.rs:581-584 | after binding a flavour's colours, the context holds its old keys and every colour identifier |
| MultiOutput.InsertColorsOther | src/main.rs:581-584 | a key no colour has keeps its value |
| MultiOutput.InsertColorsLast | src/main.rs:581-584 | a colour's identifier is bound to the last colour that has it |
| MultiOutput.BindOne | src/main.rs:572-588 | only a `flavor` value that is not a flavour name fails; `flavor` binds the flavour and its colours; other keys bind their string |
| MultiOutput.BindAllOk | src/main.rs:570-588 | binding a combination fails exactly when some `flavor` value is not a flavour name |
| MultiOutput.BindPlain | src/main.rs:585-587 | without `flavor`, binding adds exactly the combination's keys, the last binding of a key wins, and other entries are unchanged |
| MultiOutput.Bind | src/main.rs:571-588 | the binding loop returns `BindAll` |
| MultiOutput.CheckFile | src/main.rs:640-658 | an unreadable file is an error; otherwise the check passes exactly when the file holds the result |
| MultiOutput.OutcomeOf | src/main.rs:608-612 | an error ends the run as an error; otherwise the exit status is 1 exactly when some check failed |
| MultiOutput.MultiOutput | src/main.rs:195-198 | without a filename template the multi-output render fails before rendering anything |
| MultiOutput.RenderMultiOutput | src/main.rs:553-613 | with the keys in the matrix's iteration order (each key once), the loop returns the outcome and the written files that `MultiOutput` specifies |
| MultiOutput.RunCombinations | src/main.rs:568-611 | the loop over the combinations returns the outcome of running them one by one to the first error (exit status 1 when a check failed) and the files written so far |
| MultiOutput.Compare | src/main.rs:600-602 | one check result per rendered output, passing exactly when its file holds it |
| MultiOutput.StepFine | src/main.rs:570-606 | one turn ends without an error exactly when its combination is fine; a skipped combination changes nothing; a rendered one adds its check result in check mode, or its output in write mode |
| MultiOutput.RunFromError | src/main.rs:570-606 | the loop ends without an error exactly when every combination is fine |
| MultiOutput.RunFromFine | src/main.rs:570-606 | when all combinations are fine, write mode writes every render once, in order, and check mode writes nothing and checks every render once, in order |
| MultiOutput.CheckModeOutcome | src/main.rs:600-612 | in check mode, when every combination is fine, nothing is written and the exit status is 1 exactly when some render differs from its file |
| MultiOutput.CompareFail | src/main.rs:608 | some check fails exactly when some render differs from its file |
| MultiOutput.WriteModeOutcome | src/main.rs:603-605 | in write mode the render fails exactly when some combination is not fine; otherwise it finishes having written exactly the renders, in combination order |
| MultiOutput.RendersFromCombinations | src/main.rs:570-606 | every written or checked output comes from a combination of the matrix that was not skipped |
| CssFilter.Clamp01 | src/css_filter.rs:57-59 | `clamp(0, 1)` lies in [0, 1], keeps in-range values and sends values below or above the range to 0 or 1 |
| CssFilter.Sanitize | src/css_filter.rs:53-55 | a non-finite value becomes 0; a finite value is kept |
| CssFilter.InvertChannel | src/css_filter.rs:61-75 | the result is in [0, 1]; invert 0 keeps the channel; invert 1 complements it |
| CssFilter.LinearChannel | src/css_filter.rs:134-139 | the result is in [0, 1] and equals `c*slope + intercept` when that is in range |
| CssFilter.BrightnessOne | src/css_filter.rs:126-128 | brightness 1 leaves a channel alone |
| CssFilter.ContrastOne | src/css_filter.rs:130-132 | contrast 1 leaves a channel alone |
| CssFilter.ContrastFixesMidpoint | src/css_filter.rs:130-132 | every contrast keeps 0.5 at 0.5 |
| CssFilter.MultiplyChannel | src/css_filter.rs:141-155 | each channel of a matrix product is in [0, 1] |
| CssFilter.MultiplyIdentity | src/css_filter.rs:141-155 | the identity matrix leaves an in-range colour alone |
| CssFilter.NeutralMatrices | src/css_filter.rs:77-124 | sepia 0, saturate 1 and a 0-degree rotation are the identity matrix |
| CssFilter.FilterColor.constructor | src/css_filter.rs:31-37 | each byte is divided by 255; the colour is in range |
| CssFilter.FilterColor.SetRgb | src/css_filter.rs:51-59 | each channel becomes its sanitised, clamped value |
| CssFilter.FilterColor.Invert | src/css_filter.rs:61-75 | each channel becomes `InvertChannel` of its old value; the colour stays in range |
| CssFilter.FilterColor.Linear | src/css_filter.rs:134-139 | each channel becomes `LinearChannel` of its old value; the colour stays in range |
| CssFilter.FilterColor.Brightness | src/css_filter.rs:126-128 | `linear(value, 0)` |
| CssFilter.FilterColor.Contrast | src/css_filter.rs:130-132 | `linear(value, 0.5 - 0.5*value)` |
| CssFilter.FilterColor.Multiply | src/css_filter.rs:141-155 | each channel becomes its row of the old colour times the matrix, clamped |
| CssFilter.FilterColor.Sepia | src/css_filter.rs:77-90 | the sepia matrix applied to the old channels |
| CssFilter.FilterColor.Saturate | src/css_filter.rs:92-105 | the saturate matrix applied to the old channels |
| CssFilter.FilterColor.HueRotate | src/css_filter.rs:107-124 | the hue-rotation matrix for the angle's sine and cosine applied to the old channels |
| CssFilter.FilterColor.ApplyMatrices | src/css_filter.rs:333-335 | sepia, saturate and hue-rotate in that order give the colour `Matrices` specifies |
| CssFilter.FilterColor.ApplyTone | src/css_filter.rs:336-337 | brightness, then contrast, give the colour `Tone` specifies |
| CssFilter.ApplyAll | src/css_filter.rs:330-338 | the six filters in `loss` order always give an in-range colour |
| CssFilter.FilteredBlack | src/css_filter.rs:330-338 | black through the six filters, with percentages as fractions and the hue in degrees, is in range |
| CssFilter.NeutralSettings | src/css_filter.rs:330-338 | sepia 0, saturate 1, no rotation, brightness 1 and contrast 1 leave a colour alone |
| CssFilter.NeutralOnBlack | src/css_filter.rs:330-338 | with the other filters neutral, invert 0 or 1 turns black into that grey |
| CssFilter.NeutralChain | src/css_filter.rs:330-338 | with the other filters neutral, `invert(0%)` keeps black and `invert(100%)` gives white |
| CssFilter.ApplyFilters | src/css_filter.rs:330-338 | the method returns a fresh in-range colour equal to `FilteredBlack` |
| CssFilter.Trunc | src/css_filter.rs:364-368 | rounding toward zero lies within 1 of x, on the side of zero |
| CssFilter.FMod | src/css_filter.rs:364-368 | float `%` takes the dividend's sign, is smaller than the divisor in magnitude, and differs from x by a whole multiple of the divisor |
| CssFilter.Fix | src/css_filter.rs:355-378 | the result is within its bounds (saturate 7500, brightness and contrast 200, the rest 100); in-range values are kept; values outside are clamped, except the hue, which moves by whole turns of 100, landing below 100 from above and above 0 from below |
| CssFilter.FixHueDetermined | src/css_filter.rs:362-370 | those hue clauses leave exactly one result, so any hue meeting them is the one `fix` returns |
| CssFilter.FixHueAtTurns | src/css_filter.rs:364-367 | at whole turns outside the range, 200 wraps to 0 and -100 wraps to 100 |
| CssFilter.FixExamples | src/css_filter.rs:424-434 | fix(8000, 2) = 7500; fix(-10, 2) = 0; fix(5000, 2) = 5000; fix(150, 3) = 50 and fix(-50, 3) = 50, both positive as the test requires |
| CssFilter.SatI32 | src/css_filter.rs:215-220 | `as i32` saturates into the i32 range and keeps values already inside it |
| CssFilter.CssSplit | src/css_filter.rs:212-222 | the CSS text is the six filter functions, in chain order, separated by single spaces |
| CssFilter.CssOfInitial | src/css_filter.rs:212-222 | the wide search's starting values print as `invert(50%) sepia(20%) saturate(3750%) hue-rotate(180deg) brightness(100%) contrast(100%)` |
| CssFilter.CssFieldsExample | src/css_filter.rs:212-222 | each value is rounded on its own, and the hue is converted to degrees before rounding |
| CssFilter.CssFieldsInRange | src/css_filter.rs:212-222 | in-bounds values print within their ranges: the hue in [0, 360] degrees, the rest in [0, max] |
| CssFilter.ChannelByte | src/css_filter.rs:235-237 | an in-range channel rounds to a byte |
| CssFilter.ChannelByteOfByte | src/css_filter.rs:235-237 | a byte divided by 255 rounds back to the same byte |
| CssFilter.Seed | src/css_filter.rs:238 | red, green and blue sit in separate 16-bit fields of the seed and can be read back |
| CssFilter.SeedInjective | src/css_filter.rs:238 | different colours get different seeds |
| CssFilter.NewSolver | src/css_filter.rs:232-244 | the solver's seed is the seed of its target's bytes |
| CssFilter.U32Of | src/css_filter.rs:313 | `as u32` truncates and saturates |
| CssFilter.Ck | src/css_filter.rs:299 | the perturbation size is never zero |
| CssFilter.ProbesSymmetric | src/css_filter.rs:304-307 | the high and low probe points lie symmetrically about the current values, `2 * ck * delta` apart and never equal, in every coordinate |
| CssFilter.Step | src/css_filter.rs:311-315 | one iteration moves every value against its gradient estimate and passes it through `fix`, so it is within bounds |
| CssFilter.Iterate | src/css_filter.rs:298-315 | after at least one iteration every value is within bounds |
| CssFilter.BestAfterIsEarliest | src/css_filter.rs:317-321 | the best tracked so far is the earliest iterate with the lowest loss |
| CssFilter.SpsaReturnsEarliestBest | src/css_filter.rs:281-328 | `spsa` returns the earliest iterate with the lowest loss; with no iterations it returns the start with an infinite loss |
| CssFilter.SpsaInBounds | src/css_filter.rs:281-328 | after at least one iteration the returned loss is finite and every value is within bounds |
| CssFilter.Perturb | src/css_filter.rs:299-310 | the six deltas are the next six draws, and the loss difference is taken between the high and low points |
| CssFilter.Iteration | src/css_filter.rs:298-317 | the in-place update of the values array is one `Step` |
| CssFilter.Spsa | src/css_filter.rs:281-328 | the method returns `SpsaResult` |
| CssFilter.WideLoopNeverWorse | src/css_filter.rs:250-271 | the wide search returns the starting best or an attempt, never one with a higher loss |
| CssFilter.SolveWideIsOneRun | src/css_filter.rs:250-271 | since every attempt reseeds the generator, the wide search returns the single attempt's result, whose loss is finite |
| CssFilter.WideLoopSame | src/css_filter.rs:260-269 | repeating an attempt that is already the best keeps it |
| CssFilter.SolveWide | src/css_filter.rs:250-271 | the method returns the loop `WideLoop` specifies |
| CssFilter.SolveInBounds | src/css_filter.rs:246-279 | `solve` returns a finite loss and in-bounds values |
| CssFilter.Solve | src/css_filter.rs:246-248 | the method returns the narrow search from the wide result; the same colour always gives the same result, as the repeated-output test expects |
| CssFilter.SolverFor | src/css_filter.rs:404-405 | the solver for a colour is valid and its seed is the seed of the colour's bytes |
| CssFilter.FilterCache.constructor | src/css_filter.rs:396 | the cache starts empty |
| CssFilter.FilterCache.CssFilter | src/css_filter.rs:392-416 | the returned string is the one the solver computes for the colour; a cached colour changes nothing; otherwise exactly that entry is added; every entry stays the solver's string for its colour |

## Left out

- Tera rendering (hex formats, `skip_if` conditions, templates and filename
  templates) is a function parameter. The model does not interpret template
  syntax.
- serde and `matrix::from_values` are the `decode` parameter of
  `FromFrontmatter`. Version checking (semver) is not part of this model.
- The css_colors HSL conversion and the HSL adjustments (`mix`, `mod_hue`,
  saturation and lightness) are not part of this model. The HSL of a parsed
  override comes from the `hslOf` parameter.
- Colors.ModOpacity, Colors.AddOpacity, Colors.SubOpacity: these take the
  opacity as a byte. The float-to-byte conversion `(opacity * 255.0).round() as
  u8` is left out, because floats are not modelled bit for bit.
- Colors.HslFromBase: catppuccin's saturation and lightness are kept as reals.
  The `f64` to `f32` narrowing of `s as f32` and `l as f32` is left out, for
  the reason given in the next line.
- Floating point: `f32` and `f64` are reals. `mul_add` is modelled as an exact
  multiply and add. f32 rounding, the `f64` to `f32` casts in `loss`, and NaN
  arising inside a transform are not modelled. `set_rgb` does model a
  non-finite input, which becomes 0.
- CssFilter.FilterColor.HueRotate: this takes the sine and cosine of the angle,
  not the angle in degrees. The conversion to radians and `sin`/`cos` are the
  `trig` parameter.
- The loss: `hsl_lossy` and the sum of RGB and HSL distances are the `distance`
  parameter. The model states what the solver does with any loss. It does not
  state how close the result gets to the target.
- `StdRng` is the `draw(seed, index)` parameter, read six draws per iteration.
  The `powf(1/6)` of the step size is the `sixthRoot` parameter.
- `solve_narrow` is `NarrowArgs` plus one `spsa` run. The model does not
  specify it separately from `Solve`.
- The `Mutex` and `OnceLock` around the cache are not modelled: the cache is an
  object owned by its caller, and lock poisoning is left out. Both global
  statics, `FILTER_CACHE` and `HEX_FORMAT`, are passed in explicitly: the
  cache as an object and the hex format as the `render` parameter.
- `str::to_lowercase` in `should_skip` is modelled as ASCII lower-casing. Only
  the word `true` is compared, so non-ASCII letters only matter in words that
  cannot equal it anyway.
- File writing, `--dry-run`, printing, parent-directory creation and the
  difftool are left out. The files written are returned as a list, and the
  files read in check mode are a map.
- MultiOutput.RenderMultiOutput: `HashMap` iteration order is the `keys`
  parameter, so the order of the combinations follows that parameter.
- An empty matrix gives one empty combination, and so one render. This is how
  `multi_cartesian_product` behaves from itertools 0.13 on. Earlier versions
  give no combination, and the model does not cover them.
- The single-output render, the list flags and the command-line parsing are
  outside the modelled core.
