# Formatters and the pacman update count, in Dafny

This project models two parts of the i3 status bar program.

**The value-formatting engine of `src/formatting/formatter.rs`.** A block describes each field of its text by a formatter name and `key=value` arguments:
- `new_formatter` turns those into one of the `str`, `bar`, `eng` or `fix` formatters. `EngFixConfig::from_args` parses the arguments shared by `eng` and `fix`.
- Each formatter's `format` renders a tagged value (`Text`, `Number`, `Icon`, `Flag`) or reports an error:
  - `str` pads, truncates or scrolls text and escapes it for Pango markup.
  - `bar` draws a row of block glyphs with eight levels per cell.
  - `eng` chooses a prefix, scales the number, renders it in a width budget and appends the prefix and unit symbols.
  - `fix` is not implemented.
  - The flag formatter renders flags as nothing.
- `interval` tells the scheduler how often a scrolling field must be redrawn.

**The update logic of the `pacman` block (`src/blocks/pacman.rs`).** It counts the pending updates in the output of `pacman -Qu`, skipping lines marked `[ignored]`. It decides whether one of the updates matches the critical expression. It then sets the widget's text from one of three templates and its state from the count.

## Modules

| module | file | contents |
|---|---|---|
| `Wrappers` | `wrappers.dfy` | `Option`, `Result` |
| `Values` | `values.dfy` | `Value`, `Unit`, `Prefix` with its order and `clamp`, `f64` as parsed from configuration text (with signed zero, infinities and NaN), format errors |
| `FormatterTypes` | `formatter_types.dfy` | the formatter configurations, the closed `Formatter` type, the default constants |
| `FormatterArgs` | `formatter_args.dfy` | `new_formatter` and `EngFixConfig::from_args` as loops (methods), the fold that specifies them, and the lemmas on defaults, aliases, the last occurrence winning and the first rejected argument |
| `StrFormat` | `str_format.dfy` | `str`: padding, the rotation window, escaping |
| `BarFormat` | `bar_format.dfy` | `bar`: glyph table, fill, saturation, resolution |
| `EngFormat` | `eng_format.dfy` | `eng` (an imperative `Format` proved against `EngSpec`), `fix`, `flag` |
| `Formatters` | `formatters.dfy` | dispatch of `format` and `interval` over the variants |
| `Pacman` | `pacman.dfy` | `lines`, `get_update_count`, `has_critical_update`, template and state selection, the block as a class whose `Update` changes the widget's text and state |

Methods follow the source where the source updates variables step by step:
- `FormatterArgs.NewFormatter` and `FormatterArgs.EngFixFromArgs` are proved equal to a left-to-right fold of a per-argument step.
- `EngFormat.Format` and `EngFormat.PushSymbols` update the value in place and push onto the result. They are proved equal to `EngFormat.EngSpec`.
- `Pacman.PacmanBlock.Update` changes the widget's fields.

What is then proved is stated about the fold and the specification functions.

Two consequences of the code that the option names do not suggest. The model follows the code in both.
- **Non-rotating `str` length.** The code gives `min(max(len, min_width), max_width)` characters. Construction ensures `min_width <= max_width`, and then this equals `max(min(len, max_width), min_width)`. `StrFormat.PaddedChars` states both forms.
- **`eng` of 1536 bytes.** It becomes `1.5KiB` only if the binary family is selected by configuring a binary prefix, with `width` at least 3. With the default width of 2 the budget leaves one character, and the code renders ` 1KiB` (`EngFormat.KibibyteScenario`). Without a configured prefix the window starts at a decimal prefix, so the decimal `eng` selection is used.

## Model

| member | source | states |
|---|---|---|
| `Values.Clamp` | src/formatting/formatter.rs:318 | the clamped prefix lies in `[lo, hi]`; it is the prefix itself inside the window and the nearer bound outside |
| `Values.NaNIncomparable` | src/formatting/formatter.rs:88 | `<` and `>=` against a number are complementary for every `f64` except NaN, which satisfies neither |
| `FormatterArgs.NewFormatterSpec` | src/formatting/formatter.rs:52-121 | success only for `str`, `bar`, `eng`, `fix`, with the variant of that name and never the flag formatter; any other name (including `flag`) fails with `UnknownFormatter(name)` |
| `FormatterArgs.NewFormatter` | src/formatting/formatter.rs:52-121 | the argument loops with early returns compute exactly the fold `NewFormatterSpec`, with the interval check corrected (see Findings) |
| `FormatterArgs.EngFixFromArgs` | src/formatting/formatter.rs:231-291 | the loop over eight mutable fields with early returns computes exactly the fold `EngFixArgs` |
| `FormatterArgs.ParseStopsAtFirstFailure` | src/formatting/formatter.rs:59-81 | if every argument before position `k` is accepted and the one at `k` fails with `e`, the whole parse fails with `e` |
| `FormatterArgs.StrStepAccepts` | src/formatting/formatter.rs:60-80 | one `str` argument is accepted iff its key is `min_width`/`min_w`, `max_width`/`max_w`, `pango` or `rot_interval` and its value parses; otherwise the error is the key's message or `UnknownArgument("str", key)` |
| `FormatterArgs.BarStepAccepts` | src/formatting/formatter.rs:104-114 | one `bar` argument is accepted iff its key is `width`/`w` or `max_value` and its value parses; otherwise the key's message or `UnknownArgument` |
| `FormatterArgs.EngFixStepAccepts` | src/formatting/formatter.rs:242-278 | one `eng`/`fix` argument is accepted iff its key is one of the eight settings (with aliases) and its value parses; otherwise the per-key message, the unit or prefix text, or `UnknownArgument` |
| `FormatterArgs.EngFixStepUpdates` | src/formatting/formatter.rs:242-272 | an accepted argument changes only the field its key names, to the parsed value |
| `FormatterArgs.StrLastWins` | src/formatting/formatter.rs:55-81 | with every argument accepted, each `str` setting is the parse of the last value given under either alias, else its starting value |
| `FormatterArgs.BarLastWins` | src/formatting/formatter.rs:101-115 | the same for `bar`'s width and maximum |
| `FormatterArgs.EngFixLastWins` | src/formatting/formatter.rs:232-279 | the same for all eight `eng`/`fix` fields |
| `FormatterArgs.StrConstruction` | src/formatting/formatter.rs:54-99 | `str` fails with `MaxWidthBelowMinWidth` iff max < min; it fails with `IntervalTooSmall` iff the widths are ordered and an interval that is not at least 0.1 s (NaN included) is given; otherwise it holds the last values and defaults, the interval in ms and the creation time |
| `FormatterArgs.BarConstruction` | src/formatting/formatter.rs:100-117 | `bar` is built from the last width and maximum given, defaults 5 and 100.0 |
| `FormatterArgs.EngFixConstruction` | src/formatting/formatter.rs:118-119 | `eng` and `fix` carry the same configuration: last values given, width 2, no unit, no prefix, all flags false by default |
| `FormatterArgs.IntervalMs` | src/formatting/formatter.rs:96 | the saturating cast of `x * 1000` stays within `u64`, is 0 exactly for NaN and values below 1 ms, and is at least 100 for at least 0.1 s |
| `FormatterArgs.BuildStr` | src/formatting/formatter.rs:82-98 | the checks after the `str` loop, corrected (see Findings): every interval built is at least 100 ms, and the result differs from the checks as written only for a NaN interval, which it rejects |
| `FormatterArgs.StrFirstRejected` | src/formatting/formatter.rs:59-81 | the first argument `str` does not accept decides the error |
| `FormatterArgs.BarFirstRejected` | src/formatting/formatter.rs:103-115 | the first argument `bar` does not accept decides the error |
| `FormatterArgs.EngFixFirstRejected` | src/formatting/formatter.rs:241-279 | the first argument `eng`/`fix` does not accept decides the error |
| `FormatterArgs.DefaultsWithoutArguments` | src/formatting/formatter.rs:12-42 | without arguments: `str` is the default string formatter plus its creation time, `bar` is 5 wide with maximum 100.0, and `eng` is the default number formatter |
| `FormatterArgs.UnknownKeyRejected` | src/formatting/formatter.rs:77-79 | `str` with key `bogus` fails naming `bogus` |
| `FormatterArgs.InvertedWidthsRejected` | src/formatting/formatter.rs:82-86 | `str` with `min_width=5`, `max_width=2` is rejected |
| `StrFormat.PaddedChars` | src/formatting/formatter.rs:153-158 | the unescaped text is the text, then spaces, cut to `max_width`: length `min(max(len, min), max)` (and `max(min(len, max), min)` when `min <= max`), each character from the text or a space |
| `StrFormat.RotationIsWindow` | src/formatting/formatter.rs:139-152 | the scrolling iterator chain yields exactly the window `(text ++ "\|" ++ text)[step .. step + max_width]`, `max_width` characters |
| `StrFormat.RotationStep` | src/formatting/formatter.rs:143-146 | the step is at most the text length |
| `StrFormat.Format` | src/formatting/formatter.rs:134-175 | needs a non-zero interval only when the text rotates; rotating text gives the escaped window (escaped even with `pango`); other text is padded and escaped iff not `pango`; an icon is returned unchanged; numbers and flags are errors |
| `StrFormat.RotationAdvances` | src/formatting/formatter.rs:139-147 | one interval later the step is the next one modulo `len + 1`, and the window stays `max_width` wide |
| `StrFormat.EscapeIdentity` | src/formatting/formatter.rs:159-163 | when no character of the text needs escaping, escaping leaves it unchanged, so `pango` makes no difference |
| `StrFormat.EscapeAppend` | src/formatting/formatter.rs:151 | escaping distributes over concatenation |
| `StrFormat.EscapedScenario` | src/formatting/formatter.rs:153-164 | the default string formatter renders `a<b` as `a&lt;b` |
| `BarFormat.Clamp01` | src/formatting/formatter.rs:197 | the result lies in `[0, 1]` and equals the input inside it |
| `BarFormat.Normalized` | src/formatting/formatter.rs:197 | the fill fraction lies in `[0, 1]` for every maximum, `+0` and `-0` included, and is 0 for an infinite or NaN maximum |
| `BarFormat.GlyphIndex` | src/formatting/formatter.rs:201 | every index is in the 9-entry table |
| `BarFormat.Format` | src/formatting/formatter.rs:193-216 | a number gives exactly `width` glyphs, each the table entry for its cell's fill; every other value is a `bar` error of its kind |
| `BarFormat.GlyphsNonIncreasing` | src/formatting/formatter.rs:201 | fill never increases from left to right |
| `BarFormat.EighthsFloor` | src/formatting/formatter.rs:198-203 | the first `n` cells hold `floor(8 * min(fill, n))` eighths |
| `BarFormat.BarResolution` | src/formatting/formatter.rs:197-203 | the whole bar shows `floor(8 * fill * width)` eighths |
| `BarFormat.BarSaturates` | src/formatting/formatter.rs:197-201 | for a positive finite maximum: at or above it every cell is full; at or below 0 every cell is blank |
| `BarFormat.BarNonFiniteMaximum` | src/formatting/formatter.rs:197-203 | an infinite or NaN `max_value` leaves every cell blank |
| `BarFormat.BarZeroMaximum` | src/formatting/formatter.rs:197-203 | with `max_value` `+0` a positive value fills every cell and any other leaves all blank; with `-0` a negative value fills every cell and any other leaves all blank |
| `BarFormat.HalfBarScenario` | src/formatting/formatter.rs:193-203 | 50 of 100 at width 5 gives two full cells, a half cell and two blanks |
| `EngFormat.WindowOf` | src/formatting/formatter.rs:306-310 | the prefix window is never empty |
| `EngFormat.ChosenPrefix` | src/formatting/formatter.rs:306-318 | a forced prefix is always used; a preferred one is a lower bound that wins only when the automatic prefix is below it; without a configured prefix the automatic prefix is used |
| `EngFormat.NatDigitsBounds` | src/formatting/formatter.rs:321 | the digit count `d` of `n` satisfies `10^(d-1) <= n < 10^d`, which is `floor(log10 n) + 1` |
| `EngFormat.IntegerDigits` | src/formatting/formatter.rs:321-324 | for values of at least 1, `10^(d-1) <= floor(x) < 10^d`; values below 1 take one character, negative ones two |
| `EngFormat.Numeral` | src/formatting/formatter.rs:326-330 | an exhausted budget renders the floor; a budget of exactly 1 renders a leading space and the floor; otherwise `budget - 1` decimals |
| `EngFormat.EngSpec` | src/formatting/formatter.rs:298-362 | non-numbers are `eng` errors of their kind; a failed unit conversion is `UnitMismatch(from, to)`; every other number renders |
| `EngFormat.PushSymbols` | src/formatting/formatter.rs:332-348 | pushing the prefix and unit onto the numeral gives the numeral followed by `Suffix` |
| `EngFormat.Format` | src/formatting/formatter.rs:298-362 | the in-place computation with pushes equals `EngSpec` for every configuration and value |
| `EngFormat.DisplayFlagsOnlyChangeSuffix` | src/formatting/formatter.rs:332-348 | configurations that differ only in `hide_*` and `*_space` render a number with the same numeral, prefix and unit; only the suffix differs |
| `EngFormat.HiddenPrefixSpaceMovesToUnit` | src/formatting/formatter.rs:343-346 | with the prefix hidden, `prefix_space` puts the same one space before the unit that `unit_space` does |
| `EngFormat.HiddenSymbolsLeaveNumeral` | src/formatting/formatter.rs:332-348 | with prefix and unit hidden nothing follows the numeral |
| `EngFormat.IdentityPrefixInvisible` | src/formatting/formatter.rs:332-348 | after `One` or `OneButBinary` only the unit follows, behind a space iff `unit_space` or `prefix_space` is set, and nothing when the unit is not shown |
| `EngFormat.PrefixAndUnitSpacing` | src/formatting/formatter.rs:337-348 | with both shown: optional space, prefix, a space iff `unit_space`, unit |
| `EngFormat.KibibyteScenario` | src/formatting/formatter.rs:298-350 | 1536 B with `Ki` preferred renders `1.5KiB` at width 3 and ` 1KiB` at width 2 |
| `EngFormat.FixFormat` | src/formatting/formatter.rs:368-388 | always an error: not implemented for numbers, a `fix` error of its kind otherwise |
| `EngFormat.FlagFormat` | src/formatting/formatter.rs:393-399 | a flag renders as the empty string |
| `Formatters.Format` | src/formatting/formatter.rs:44-50 | success exactly for `str` on text or icons, `bar` on numbers, `eng` on convertible numbers and `flag`; every kind error names the formatter and the value's kind; other errors only for numbers under `eng`/`fix` |
| `Formatters.Interval` | src/formatting/formatter.rs:177-179 | only `str` reports an interval |
| `Formatters.ConstructedFormattersUsable` | src/formatting/formatter.rs:82-98 | with the corrected interval check, every constructed formatter can format every value (no zero interval); only `str` reports an interval, of at least 100 ms |
| `Formatters.NaNIntervalAccepted` | src/formatting/formatter.rs:87-96 | as written, `max_width=3, rot_interval=NaN` builds a formatter with a 0 ms interval that rotates a four-character text, which divides by zero; the corrected check rejects these arguments |
| `Formatters.ConstructedInterval` | src/formatting/formatter.rs:96 | a constructed `str`'s interval is the last `rot_interval` in ms, none without one |
| `Formatters.DefaultFormatters` | src/formatting/formatter.rs:22-42 | the default string formatter never rotates and has no interval; the default number formatter renders every number; the default flag formatter renders flags as `""` |
| `Formatters.FixScenario` | src/formatting/formatter.rs:376 | `fix` on the number 1 is the not-implemented error |
| `Pacman.LinesCons` | src/blocks/pacman.rs:195 | a `\n`-terminated line without `\r` before its `\n` is the first line of the output |
| `Pacman.LinesOfTerminated` | src/blocks/pacman.rs:195 | splitting into lines undoes joining lines with `\n` terminators, and a final `\n` adds no empty line |
| `Pacman.Filter` | src/blocks/pacman.rs:196 | the kept lines are exactly the lines satisfying the predicate |
| `Pacman.FilterMultiplicity` | src/blocks/pacman.rs:196 | each line satisfying the predicate is kept as often as it occurs; every other line is dropped |
| `Pacman.FilterAppend` | src/blocks/pacman.rs:196 | filtering distributes over concatenation |
| `Pacman.FilterCountsPositions` | src/blocks/pacman.rs:196-197 | the length of the filtered lines is the number of positions whose line satisfies the predicate |
| `Pacman.FilterPartition` | src/blocks/pacman.rs:196 | filtering by a predicate and by its negation splits the lines |
| `Pacman.UpdateCount` | src/blocks/pacman.rs:193-198 | the count is the number of line positions not marked `[ignored]`; it never exceeds the number of lines and is 0 iff every line is marked |
| `Pacman.CountPlusIgnored` | src/blocks/pacman.rs:193-198 | pending plus ignored lines is the number of lines |
| `Pacman.HasCriticalUpdate` | src/blocks/pacman.rs:200-202 | true iff some line matches; false for empty output |
| `Pacman.TwoPlainLinesCounted` | src/blocks/pacman.rs:193-198 | two unmarked `\n`-terminated lines count 2 |
| `Pacman.UpdateCountExamples` | src/blocks/pacman.rs:258-267 | the empty output counts 0; the two `systemd` lines count 2 |
| `Pacman.TemplateFor` | src/blocks/pacman.rs:215-219 | count 0 uses `format_up_to_date`, count 1 `format_singular`, any other count `format` |
| `Pacman.StateFor` | src/blocks/pacman.rs:220-231 | `Idle` iff count 0; `Critical` iff count > 0, a regex is set and some line matches; `Info` otherwise |
| `Pacman.IdleWinsOverCritical` | src/blocks/pacman.rs:220-221 | nothing pending is `Idle` whatever the regex matches |
| `Pacman.IgnoredLineCanBeCritical` | src/blocks/pacman.rs:223-226 | ignored lines are searched for critical updates: one pending update plus a matching ignored one is `Critical` |
| `Pacman.PacmanBlock.constructor` | src/blocks/pacman.rs:24-32 | the block holds the given widget content, interval, templates and regex |
| `Pacman.PacmanBlock.Update` | src/blocks/pacman.rs:205-233 | a failed `fakeroot` lookup, a missing `fakeroot` (`BlockError("pacman", "fakeroot not found")`), a failed package listing and a failed render all leave the widget unchanged; otherwise the text is the selected template rendered with the count, the state is `StateFor`, and the result is `Some(update_interval)` |

## Left out

- Wall-clock time: `Instant::now()` and `init_time.elapsed()` become a millisecond clock reading `now`, passed in; the elapsed time saturates at 0.
- The `Unit` and `Prefix` operations (`convert`, `clamp_prefix`, `eng`, `eng_binary`, `apply`, their `Display`) and the rendering of `f64` numerals are abstract functions in `EngFormat.NumericOps`. `src/formatting/unit.rs` and `src/formatting/prefix.rs` are not part of this model.
- The variants of `Unit` and `Prefix`, the declaration order that `clamp`, `min_available` and `max_available` use, and which prefixes are binary are assumed. They are not derived from source in this model.
- The `FromStr` parsers of `usize`, `f64`, `bool`, `Unit` and `Prefix` are abstract functions in `FormatterArgs.Parsers`.
- `collect_pango_escaped` is an abstract per-character escape `esc`.
- Floating point: magnitudes are exact reals and rounding is not modelled. Floats parsed from arguments (`rot_interval`, `max_value`) may also be infinite or NaN. Zero is signed: `-0` is kept apart from `0` because dividing by it flips the sign of the infinity. The numbers being formatted are finite and unsigned at zero; the bar's division by a zero maximum follows IEEE (`BarFormat.BarZeroMaximum`).
- `EngFormat.IntegerDigits`: counts digits exactly instead of through `f64::log10`, so values within rounding error of a power of ten may differ from the binary result.
- `EngFormat.EngSpec`: the width budget is computed on unbounded integers. It does not model the wrap of `width as isize` for widths above `isize::MAX`, nor the saturation of `val.floor() as i64`.
- `FormatterArgs.IntervalMs`: the product `x * 1e3` is exact, so the `f64` rounding of the product is not modelled.
- `StrFormat.Format`: requires a non-zero interval when the text rotates, because the source divides by it there. As written, `new_formatter` can build such a formatter from a NaN interval (see Findings); with the corrected check it cannot (`Formatters.ConstructedFormattersUsable`). The `as_millis() as u64` truncation is not modelled.
- `EngFormat.FlagFormat`: the source panics on non-flags (`unreachable!`). The model makes "only flags" a precondition.
- Error texts: format errors carry the value kind and the formatter name instead of the message string. The two `str` check messages are the constructors `MaxWidthBelowMinWidth` and `IntervalTooSmall`.
- `Pacman.Lines`: a `\r` is removed only before a `\n`. A `\r` ending an unterminated last line is kept.
- pacman I/O: `has_fake_root`, `get_updated_package_list_to_update`, `run_command`, the environment lookups, `fs::create_dir_all`, `symlink` and the UTF-8 decoding of the command output. Their results are the parameters of `Pacman.PacmanBlock.Update`.
- `Regex` compilation and matching are an abstract line predicate. `FormatTemplate` parsing and rendering are an abstract `render` function of the count.
- The widget's icon and other fields, and `Pacman::new`, `view`, `id` and `click`: only the text and state that `update` changes are modelled.
- The `Formatter` trait objects (`Box<dyn Formatter>`, `Send + Sync`) are the closed datatype `FormatterTypes.Formatter`.

## Findings

| source | as written | input that shows it | evidently intended | confidence | as-written member | corrected member |
|---|---|---|---|---|---|---|
| src/formatting/formatter.rs:87-96 | `rot_interval < 0.1` is false for NaN, so NaN passes, and `(NaN * 1e3) as u64` is 0 | `str` with `max_width=3, rot_interval=NaN`, then formatting `abcd`: the rotation step at line 141 divides by a zero interval | reject every interval that is not at least 0.1 s | high, not executed | `FormatterArgs.BuildStrAsWritten`, shown by `Formatters.NaNIntervalAccepted` | `FormatterArgs.BuildStr` |

`FormatterArgs.BuildStrAsWritten` is the check as written. `FormatterArgs.NewFormatter`, `FormatterArgs.NewFormatterSpec` and every lemma about them use the corrected `FormatterArgs.BuildStr`. It differs from the source only for a NaN interval.
