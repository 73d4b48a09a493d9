# TesseraTUI formula engine, modelled in Dafny

TesseraTUI is a terminal spreadsheet. Its native library (`native/src/lib.rs`)
is a small formula engine that the host calls through a C interface. It has two
independent parts:

* **The formula parser.** It takes a formula such as `=SUM(ColumnA)` and returns
  either the text `SUM:ColumnA` or an error message. The steps, in order:
  1. Trim the formula. Require a leading `=`.
  2. Trim what follows the `=`. This is the body.
  3. Split the body at its *first* `(`. Require that the body's last character is `)`.
  4. Upper-case the trimmed name. Join it to the trimmed argument with `:`.
* **Five tolerant column aggregators: SUM, AVG, MIN, MAX and COUNT.** Each one takes a column name and a column of C strings. Each works in three steps:
  1. Check its arguments.
  2. Walk the column once, skipping:
     * null cells;
     * cells that are not UTF-8;
     * cells that are blank after trimming;
     * for all but COUNT, cells that do not parse as a number.
  3. Return a number, or an error when nothing was numeric. COUNT counts every
     cell with content, numeric or not, and fails only on its arguments.

The project has five files:

| file | contents |
|---|---|
| `wrappers.dfy` | `Option` and `Result` |
| `text.dfy` | Text received across the C boundary (`RawText`: null, not UTF-8, or a string). Also Rust's `str::trim` over Unicode White_Space, `str::find` for one character, and ASCII upper-casing. |
| `formula.dfy` | The parser as a pure function `ParseFormula` returning `Result<Call, FormulaError>`, and `Output`, the string the host receives. Both come with their lemmas. |
| `aggregate.dfy` | The specification of the aggregators. `Coerce` says what a single cell contributes. `Numbers` is the contributing numbers in column order, `ContentCount` the cells with content. `SumOf`, `AvgOf`, `MinOf`, `MaxOf` and `CountOf` are the results. The lemmas relate them. |
| `engine.dfy` | The five aggregators as the loops of the source: `for` over the column, `continue` on every skipped cell, running accumulators. Each is proved to return exactly its specification function. |

The number parser is a parameter (`NumberParser = string -> Option<real>`). Every
statement about the aggregators therefore holds for any parser.

## Model

| member | source | states |
|---|---|---|
| Text.TrimStart | native/src/lib.rs:328-341 | Computes the input without its leading White_Space. The result is never longer than the input. |
| Text.TrimEnd | native/src/lib.rs:328-341 | Computes the input without its trailing White_Space. The result is never longer than the input. |
| Text.Trim | native/src/lib.rs:328-341 | `str::trim`: TrimEnd of TrimStart. The result is never longer than the input. |
| Text.TrimIsSlice | native/src/lib.rs:328 | What `trim` keeps is one contiguous slice of the input. Only whitespace is cut on either side. |
| Text.TrimOfPadded | native/src/lib.rs:328 | Trimming whitespace padding around a core that starts and ends with a non-space gives back exactly the core. |
| Text.TrimIdempotent | native/src/lib.rs:341 | Trimming an already trimmed string changes nothing. |
| Text.TrimKeepsNonWhitespace | native/src/lib.rs:341 | A non-whitespace character occurs in the trimmed string iff it occurs in the original. |
| Text.IndexOf | native/src/lib.rs:343 | `find`: None iff the character is absent. Otherwise the position holds it and no earlier position does. |
| Text.ToUpper | native/src/lib.rs:344 | Upper-casing keeps the length and maps each character by ASCII case folding. No lower-case ASCII letter remains. |
| Text.UpperChar | native/src/lib.rs:344 | A lower-case ASCII letter maps to its upper-case form, 32 code points lower. Every other character is kept. |
| Text.ToUpperIgnoresCase | native/src/lib.rs:344 | Two strings that differ only in the case of ASCII letters upper-case to the same string. |
| Text.TrimIgnoresCase | native/src/lib.rs:344 | Trimming two strings that differ only in letter case leaves them differing only in letter case. Letters are never whitespace. |
| Formula.ParseFormula | native/src/lib.rs:321-369 | Computes the parse: a null formula fails with NullFormula, one that is not UTF-8 with InvalidEncoding, and any other is handed to ParseTrimmed after trimming. |
| Formula.ParseTrimmed | native/src/lib.rs:335-341 | Computes the checks on the trimmed formula: no leading `=` fails with MissingLeadingEquals, otherwise the rest after the `=` is trimmed and handed to ParseBody. |
| Formula.ParseBody | native/src/lib.rs:343-367 | Computes the checks on the body: no `(` fails with ExpectedFunctionCall, a last character other than `)` fails with MissingClosingParen, otherwise upper(trim of what precedes the first `(`) and trim of what lies between it and the final `)` go to Build. |
| Formula.Build | native/src/lib.rs:356-364 | Computes the `CString::new` step: fails with ResultNotCString when `NAME:arg` holds a NUL, otherwise succeeds with the call. |
| Formula.Output | native/src/lib.rs:321-369 | Computes the string the host receives: `NAME:arg` on success, the error's message on failure. |
| Formula.Message | native/src/lib.rs:321-369 | Computes the error text for each of the six failures, as the source's literals at lines 323, 330, 336, 348, 361 and 366. |
| Formula.BodyOutcome | native/src/lib.rs:343-367 | The body gives the syntax error iff it has no `(`. It gives the missing-paren error iff it has a `(` but its last character is not `)`. |
| Formula.MissingEqualsIff | native/src/lib.rs:335-338 | The parse fails with "must start with '='" iff the trimmed formula does not start with `=`. No later check can produce that error. |
| Formula.ExpectedCallIff | native/src/lib.rs:341-367 | The parse fails with the "expected function(arg)" error iff the trimmed formula starts with `=` and holds no `(`. This is so even when the formula ends in `)`: the `(` check comes first. |
| Formula.MissingCloseIff | native/src/lib.rs:343-350 | The parse fails with "missing closing parenthesis" iff the trimmed formula starts with `=`, holds a `(`, and does not end with `)`. |
| Formula.JoinedNulFree | native/src/lib.rs:344-356 | Upper-casing a NUL-free name and joining it to a NUL-free argument gives a NUL-free result. |
| Formula.BodyNulFree | native/src/lib.rs:343-364 | A NUL-free body never fails when its result string is built. |
| Formula.NulFreeBuildsResult | native/src/lib.rs:356-364 | A NUL-free formula never fails with "Failed to create result string". |
| Formula.BodyCallShape | native/src/lib.rs:343-356 | A body NAME `(` ARG `)`, with no `(` in NAME, parses to upper(trim NAME) and trim ARG. |
| Formula.ParseCallShape | native/src/lib.rs:327-356 | Every formula that trims to `=` NAME `(` ARG `)`, with no `(` in NAME, parses to upper(trim NAME) and trim ARG. Further parentheses in ARG stay verbatim, and an empty ARG is allowed. |
| Formula.ParsePaddedCall | native/src/lib.rs:327-356 | Leading and trailing whitespace around `=` NAME `(` ARG `)` makes no difference to the parse. |
| Formula.ParseSuccessHasCallShape | native/src/lib.rs:327-369 | The converse of ParseCallShape. A formula parses only if it trims to `=` NAME `(` ARG `)` with no `(` in NAME, and the result is upper(trim NAME) and trim ARG. |
| Formula.ParsedCallIsNormalised | native/src/lib.rs:344-352 | A parsed name has no lower-case ASCII letter. A parsed argument has no surrounding whitespace. |
| Formula.OutputOfCall | native/src/lib.rs:344-359 | For a formula that trims to `=` NAME `(` ARG `)`, the host receives upper(trim NAME), then `:`, then trim ARG. |
| Formula.NameCaseIgnored | native/src/lib.rs:344 | Function names are case-insensitive. Two calls on the same argument whose names differ only in letter case parse to the same call and give the same output. |
| Formula.MessageShape | native/src/lib.rs:321-369 | Every error message of the parser is at least two characters long, has a lower-case second character and does not start with `:`. |
| Formula.SuccessIsNeverAnErrorMessage | native/src/lib.rs:321-369 | A successful `NAME:arg` output never equals an error message, so the host can tell the two apart. |
| Formula.ExampleSumColumnA | native/src/lib.rs:376-383 | `=SUM(ColumnA)` yields `SUM:ColumnA`. |
| Formula.ExampleLowerCaseSpaced | native/src/lib.rs:327-356 | `  =sum ( ColumnA )  ` yields `SUM:ColumnA`. |
| Formula.ExampleNested | native/src/lib.rs:343-352 | `=SUM((A) (B))` yields `SUM:(A) (B)`. Only the first `(` and the final `)` delimit. |
| Formula.ExampleEmptyArg | native/src/lib.rs:343-356 | `=Avg()` yields `AVG:`. |
| Formula.ExampleNoEquals | native/src/lib.rs:335-338 | `SUM(ColumnA)` yields "Formula must start with '='". |
| Formula.ExampleNoOpen | native/src/lib.rs:365-367 | `=SUM ColumnA)` yields the "expected function(arg)" syntax error, not the missing-paren error. |
| Formula.ExampleNoClose | native/src/lib.rs:347-350 | `=SUM(ColumnA` yields "Formula missing closing parenthesis". |
| Aggregate.CheckArguments | native/src/lib.rs:57-67 | The argument checks: they succeed, with the column, iff the column name is UTF-8 and the values pointer is not null. A null pointer fails with NullPointer first, then a name that is not UTF-8 with InvalidColumnName. |
| Aggregate.Coerce | native/src/lib.rs:76-98 | Computes what one cell contributes: nothing for a null cell, a cell that is not UTF-8, a blank trimmed cell or one the number parser refuses; otherwise the parsed number of its trimmed text. |
| Aggregate.HasContent | native/src/lib.rs:295-306 | Computes what COUNT counts: a cell that is UTF-8 and not blank once trimmed, numeric or not. |
| Aggregate.Counted | native/src/lib.rs:304-306 | Computes one cell's share of COUNT: 1 when it has content, 0 otherwise. |
| Aggregate.Numbers | native/src/lib.rs:75-100 | Computes the contributed numbers in column order. There are never more of them than cells. |
| Aggregate.ContentCount | native/src/lib.rs:290-307 | Computes how many cells have content. The count never exceeds the column length. |
| Aggregate.SumOf | native/src/lib.rs:57-107 | Computes SUM: the argument error if any, NoNumericValues when no cell contributes, otherwise the total of the contributed numbers. |
| Aggregate.AvgOf | native/src/lib.rs:112-161 | Computes AVG: the argument error if any, NoNumericValues when no cell contributes, otherwise that total over the number of contributing cells. |
| Aggregate.MinOf | native/src/lib.rs:166-215 | Computes MIN: the argument error if any, NoNumericValues when no cell contributes, otherwise the running minimum of the contributed numbers. |
| Aggregate.MaxOf | native/src/lib.rs:220-269 | Computes MAX: the argument error if any, NoNumericValues when no cell contributes, otherwise the running maximum of the contributed numbers. |
| Aggregate.CountOf | native/src/lib.rs:274-310 | Computes COUNT: the argument error if any, otherwise the number of cells with content. |
| Aggregate.AggMessage | native/src/lib.rs:57-107 | Computes the error text of each aggregator failure, as the source's literals at lines 58, 65 and 104. |
| Aggregate.Least | native/src/lib.rs:199-205 | The running minimum of a non-empty sequence is one of its numbers and no larger than any of them. |
| Aggregate.Greatest | native/src/lib.rs:253-259 | The running maximum of a non-empty sequence is one of its numbers and no smaller than any of them. |
| Aggregate.NumbersConcat | native/src/lib.rs:75-100 | The numbers of two columns laid end to end are those of the first column, then those of the second. |
| Aggregate.ContentCountConcat | native/src/lib.rs:294-307 | COUNT of two columns laid end to end is the sum of their counts. |
| Aggregate.NumbersMembership | native/src/lib.rs:75-100 | A number is contributed iff some cell coerces to it. |
| Aggregate.NumbersEmptyIff | native/src/lib.rs:75-105 | No number is contributed iff every cell is skipped. |
| Aggregate.NumbersWithinContent | native/src/lib.rs:75-100 | Every contributing cell has content, so there are no more numbers than counted cells, and no more counted cells than cells. |
| Aggregate.TotalConcat | native/src/lib.rs:92 | Over reals, the total of two sequences laid end to end is the sum of their totals. |
| Aggregate.ArgumentErrorsComeFirst | native/src/lib.rs:57-67 | All five aggregators refuse a null name or a null values pointer with "Null pointer provided". Otherwise they refuse a name that is not UTF-8 with "Invalid column name encoding", whatever the cells hold. |
| Aggregate.NumericFailsIffNothingContributes | native/src/lib.rs:75-105 | With valid arguments, SUM, AVG, MIN and MAX each fail with "No numeric values" iff every cell is skipped. |
| Aggregate.CountFailsOnlyOnArguments | native/src/lib.rs:279-310 | COUNT fails iff its arguments are refused. Otherwise its value lies between the number of contributing cells and the column length. |
| Aggregate.ContentCountFull | native/src/lib.rs:294-307 | A column whose cells all have content counts every cell. |
| Aggregate.TextCountedButNotSummed | native/src/lib.rs:274-310 | On a column of non-blank, non-numeric text, SUM fails and COUNT counts every cell. |
| Aggregate.MinIsContributingLowerBound | native/src/lib.rs:182-215 | MIN returns the number of some contributing cell, and no contributing cell holds a smaller one. |
| Aggregate.MaxIsContributingUpperBound | native/src/lib.rs:236-269 | MAX returns the number of some contributing cell, and no contributing cell holds a larger one. |
| Aggregate.MeanWithinBounds | native/src/lib.rs:161 | Over reals, bounds on every number bound their mean. |
| Aggregate.AvgIsSumOverContributing | native/src/lib.rs:147-161 | AVG succeeds iff SUM does. AVG is then SUM divided by the number of contributing cells, not by the column length. |
| Aggregate.AvgBetweenMinAndMax | native/src/lib.rs:112-269 | Over reals, MIN <= AVG <= MAX whenever AVG succeeds. |
| Aggregate.SameNumbersSameResults | native/src/lib.rs:75-105 | Columns that contribute the same numbers give the same SUM, AVG, MIN and MAX. |
| Aggregate.SkippedCellChangesNothing | native/src/lib.rs:76-98 | Inserting a skipped cell anywhere changes none of SUM, AVG, MIN and MAX. |
| Aggregate.EmptyCellNotCounted | native/src/lib.rs:295-306 | Inserting a null, non-UTF-8 or blank cell anywhere does not change COUNT. |
| Aggregate.SumAdds | native/src/lib.rs:70-107 | Over reals, SUM of two columns laid end to end is the sum of the SUMs of each column. |
| Aggregate.CountAdds | native/src/lib.rs:290-310 | COUNT of two columns laid end to end is the sum of the COUNTs of each column. |
| Aggregate.ExampleSumAndAvg | native/src/lib.rs:385-413 | Over 10, 20 and 30, SUM is 60 and AVG is 20. |
| Aggregate.ExampleMinAndMax | native/src/lib.rs:415-443 | Over 10, 20 and 5, MIN is 5 and MAX is 20. |
| Aggregate.ExampleCount | native/src/lib.rs:445-459 | COUNT of "10", "", "30", "40" is 3. |
| Aggregate.ExampleAvgSkipsText | native/src/lib.rs:147-161 | AVG of "10", "abc", "20" is 15: the word is not in the divisor. |
| Aggregate.ExampleTextOnly | native/src/lib.rs:274-310 | On "", "abc" and a null cell, SUM fails with "No numeric values" while COUNT is 1. |
| Engine.Sum | native/src/lib.rs:52-108 | The loop returns exactly SumOf. Its invariant: the running sum and count are the total and the number of the prefix's numbers. |
| Engine.Avg | native/src/lib.rs:112-162 | The loop returns exactly AvgOf: the sum over the count of contributing cells. |
| Engine.Min | native/src/lib.rs:166-216 | The loop returns exactly MinOf. Its invariant: the running minimum is None iff the prefix contributed nothing, and otherwise it is Least of the prefix's numbers. |
| Engine.Max | native/src/lib.rs:220-270 | The loop returns exactly MaxOf. Its invariant: the running maximum is None iff the prefix contributed nothing, and otherwise it is Greatest of the prefix's numbers. |
| Engine.Count | native/src/lib.rs:274-311 | The loop returns exactly CountOf. Its invariant: the counter is ContentCount of the prefix. |

## Left out

* **Null and encoding checks on the raw pointers.** A null or non-UTF-8 C string is the constructor `NullPtr` or `BadUtf8` of `RawText`. A null values pointer is `None`. `slice::from_raw_parts` with its `count` is the length of a Dafny sequence. Pointer validity is not part of this model, and neither is UTF-8 decoding itself.
* **`FormulaResult`, its constructors and `tessera_free_string` (`native/src/lib.rs:6-37`).** This is C-string ownership across the foreign-function boundary. It is not part of this model. An aggregator's result is a `Result<real, AggError>`. `AggMessage` gives the error texts.
* **The aggregators' `f64` arithmetic.**
  * Numbers are Dafny reals, so float rounding of the running sum and of AVG's division is not modelled. The four properties listed at the end of this section hold over reals only and are false for the source's `f64` arithmetic.
  * `parse::<f64>` is a parameter, so its grammar is not modelled, and neither are infinities or NaN.
  * `f64::min`/`f64::max` are modelled as the plain smaller and larger of two reals. Their handling of NaN and of signed zero is not modelled.
* **The `i32` counters `parsed_count` and `counted`.** They are modelled as unbounded integers. Wrap-around or overflow after 2^31 cells is not modelled.
* **`to_uppercase`.** It is modelled as ASCII case folding. Unicode case mappings, including those that change a string's length, are not modelled.
* **Byte offsets.** Rust slices the formula at byte offsets of `find`. The model slices at character positions. Since `(`, `)` and `=` are single-byte characters, the two agree.
* **NUL characters in host strings.** A C string ends at its first NUL, so no string the host passes holds one. The model's strings are not restricted. It therefore keeps the "Failed to create result string" branch (`ResultNotCString`), and `NulFreeBuildsResult` proves the host can never reach it.
* **The column name.** Only its null and encoding checks are modelled. Its value is unused by the source too.
- Aggregate.TotalConcat: holds over reals only. In `f64`, adding 1e16, then 1, then 1 gives 1e16, while 1e16 plus the total 2 of [1, 1] gives 1.0000000000000002e16.
- Aggregate.SumAdds: holds over reals only. In `f64`, SUM of "1e16", "1", "1" is 1e16, while SUM of "1e16" plus SUM of "1", "1" is 1.0000000000000002e16.
- Aggregate.MeanWithinBounds: holds over reals only. In `f64`, the mean of 0.1, 0.1, 0.1 is 0.30000000000000004 / 3 = 0.10000000000000002, above the bound 0.1 on each number.
- Aggregate.AvgBetweenMinAndMax: holds over reals only. In `f64`, AVG of "0.1", "0.1", "0.1" is 0.10000000000000002, which is more than MAX = 0.1.
