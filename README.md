# table_maker: class `Labs` in Dafny

`Labs` (tablemaker.py) holds a laboratory data table. It has:

- a header for each measured quantity, with its unit;
- one column of measurements per quantity, where `None` marks a missing entry;
- an optional rounding digit per column.

It prints the table as a LaTeX `tabular`, with a mean row and a standard-error row. Every number is rounded to its column's digit. An unset digit is taken from the position of the first significant digit of the column's standard error.

This project models that class in four modules, after a small shared one (`Wrappers`, holding `Option`, `Result` and the Python exception kinds):

- `Decimals` (decimals.dfy) defines the exact decimals `Dec(mant, scale)` = `mant / 10^scale`, which stand for the floats of the source. It also defines their digit text: `str` of a natural number, `int` of a digit string, and `str.find`.
- `SignificantDigit` (significant_digit.dfy) models `first_nonzero`. It scans the text `str(float(abs(x)))`, exactly as the source does. It proves that the scan gives the decimal position of the leading digit, `scale + 1 - digits(mant)`. Outside the range where Python prints a float in plain notation (1e-4 <= |x| < 1e16), the scan meets the `e` of the exponent and raises.
- `Formatting` (formatting.dfy) models `prettify`:
  - rounding half to even to `digit` places, with tens and hundreds for a negative digit;
  - fixed notation with `max(digit, 0)` places;
  - the decimal point replaced by a comma.

  A parser proves that the printed text reads back as exactly the rounded value.
- `Tablemaker` (tablemaker.dfy) covers the rest:
  - the constructor's checks and its padding of ragged columns;
  - `stat_values`, which resolves the digits in a loop and prints the statistics in a loop;
  - `make_table`, built as a sequence of `Line`s (opening, rules, rows of `Cell`s, ending) together with the exact LaTeX text of each line.

  The class `Labs` keeps the source's fields. Its methods update them in place.

## Model

| member | source | states |
|---|---|---|
| Tablemaker.InitError | tablemaker.py:21-49 | No error exactly when both inputs are non-empty, the header and column counts agree, and a non-empty digit list has one digit per column. Otherwise it returns the first failing check's `ValueError` with the source's message |
| Tablemaker.MaxLen | tablemaker.py:59 | `len(max(data, key=len))`: no column is longer, and some column has exactly this length |
| Tablemaker.PadColumn | tablemaker.py:67-68 | The padded column has length `m`, keeps the original entries as its prefix, and has only `None` after them |
| Tablemaker.Labs.constructor | tablemaker.py:55-68 | The new object is valid. It records the headers, `n` and `m`, pads every column to `m` with `None`, and takes the given digits, or `None` for each column when none are given |
| Tablemaker.Labs.Create | tablemaker.py:20-68 | On input that fails a check, the first check's error. Otherwise a fresh valid object, as the constructor states |
| Tablemaker.InitErrorExamples | test_labs_pytest.py:10-16 | The empty quantities dict and both column-count mismatches of the constructor tests raise the error each is meant to raise |
| Tablemaker.InitErrorDigitsExamples | test_labs_pytest.py:17-32 | Too many and too few rounding digits raise the length error (lines 17-20); the single empty column of line 32 is accepted |
| SignificantDigit.FirstNonzero | tablemaker.py:89-100 | 0 for zero. For any other number it is the decimal position of the leading digit of `abs(x)`: `scale + 1 - digits(mant)` |
| SignificantDigit.FirstNonzeroChecked | tablemaker.py:86-100 | `None` stays `None` and zero gives 0. It fails, with the `ValueError` of `int('e')`, exactly when a nonzero number prints in exponent notation. Otherwise the result is the leading-digit position |
| SignificantDigit.ScanOfPlainText | tablemaker.py:96-100 | The scan finds a nonzero digit in the text of a positive number. Index of that digit minus index of the point plus one is `scale + 1 - digits(mant)` |
| SignificantDigit.FirstNonzeroRangeEdges | tablemaker.py:96-97 | 0.0001 scans to 4. 0.000005 (`5e-06`) and 10^16 (`1e+16`) fail with the `int('e')` error |
| SignificantDigit.FirstNonzeroSymmetric | tablemaker.py:96 | `first_nonzero(-x) == first_nonzero(x)` |
| SignificantDigit.FirstNonzeroSign | tablemaker.py:96-100 | For a nonzero `x`, the result is at most 0 exactly when `abs(x) >= 1` |
| SignificantDigit.FirstNonzeroMonotone | tablemaker.py:96-100 | A smaller magnitude never moves the first significant digit to the left |
| SignificantDigit.FirstNonzeroSmallWholeExamples | test_labs_pytest.py:33-34 | 0.0, 6, 12 and 146 give 0, 0, -1 and -2 |
| SignificantDigit.FirstNonzeroLargeWholeExample | test_labs_pytest.py:33-34 | 19023 gives -4 |
| SignificantDigit.FirstNonzeroFractionExamples | test_labs_pytest.py:33-34 | -0.052 and 0.28 print in plain notation, and give 2 and 1 |
| SignificantDigit.FirstNonzeroSmallFractionExample | test_labs_pytest.py:33-34 | 0.000197 gives 4 |
| SignificantDigit.FirstNonzeroLongFractionExamples | test_labs_pytest.py:33-34 | 0.8392 gives 1 and 0.00720 gives 3 |
| Formatting.RoundHalfEven | tablemaker.py:131 | The quotient rounded to a whole number lies within half a unit, and a tie goes to the even neighbour |
| Formatting.RoundHalfEvenUnique | tablemaker.py:131 | No other whole number is within half a unit and even on a tie, so the rounding is fully determined |
| Formatting.Rounded | tablemaker.py:130-131 | The rounded value has `max(digit, 0)` fraction digits. It is never negative for a non-negative `x`, and never positive for a non-positive `x` |
| Formatting.RoundedIsRounding | tablemaker.py:131 | The rounded value is a whole number of units `10^-digit` (a multiple of 10 for digit -1, of 100 for -2, ...), lies within half a unit of `x`, and is an even number of units on a tie |
| Formatting.RoundedUnique | tablemaker.py:131 | Any value with `max(digit, 0)` fraction digits that is a whole number of units, within half a unit of `x` and even on a tie is the rounded value, so that characterization fixes the rounding |
| Formatting.RoundedNearest | tablemaker.py:131 | The rounded value is within half of `10^-digit` of `x` |
| Formatting.RoundedExact | tablemaker.py:131 | A number with at most `digit` fraction digits keeps its value |
| Formatting.Prettify | tablemaker.py:120-132 | `None` stays `None`. A number whose digit is `None` fails with the digit `ValueError`, and only that case fails. Otherwise the text reads back as the rounded value, starts with `-` exactly when the number is negative, and its integer part has no leading zero |
| Formatting.Format | tablemaker.py:130-132 | The text is the rounded value's digits with `max(digit, 0)` places, signed as `x` is, with ',' as the decimal point |
| Formatting.FormatPlainInteger | tablemaker.py:130-132 | The integer part of the text is `0` or starts with a nonzero digit, after the sign |
| Formatting.FormatRoundTrip | tablemaker.py:130-132 | Reading the printed text back, with ',' as the decimal point, gives exactly the rounded value |
| Formatting.FormatSign | tablemaker.py:130-132 | The text starts with `-` exactly when `x` is negative, and otherwise with a digit |
| Formatting.FormatDecimalComma | tablemaker.py:130-132 | The text has no '.'. It has a ',' exactly when `digit > 0`, and then exactly `digit` digits follow it |
| Formatting.FormatTieExamples | tablemaker.py:131 | 2.5 prints as `2` and 3.5 as `4` |
| Formatting.FormatTensExample | tablemaker.py:130-132 | 82.33 with digit -1 prints as `80` |
| Formatting.FormatNegativeZeroExample | tablemaker.py:130-132 | -0.004 with digit 2 prints as `-0,00` |
| Formatting.FormatPaddedExample | tablemaker.py:130-132 | 2 with digit 1 prints as `2,0` |
| Tablemaker.Present | tablemaker.py:154 | The entries kept for the statistics are exactly the present entries of the column, zeros included |
| Tablemaker.PresentAppend | tablemaker.py:154 | The kept entries of a column made of two pieces are those of the first piece followed by those of the second, so order and repetitions are kept |
| Tablemaker.PresentSingle | tablemaker.py:154 | A single entry is kept, once, exactly when it is present. With `PresentAppend` this determines the kept entries of every column |
| Tablemaker.PresentSkipsNone | tablemaker.py:154 | Inserting a missing entry anywhere in a column changes nothing that is kept, so nothing in the statistics |
| Tablemaker.PresentExample | tablemaker.py:154 | `[1, None, 3]` keeps `[1, 3]` |
| Tablemaker.FilteredAsWritten | tablemaker.py:154 | `filter(None, col)` keeps exactly the present entries that are nonzero |
| Tablemaker.FilteredAppend | tablemaker.py:154 | The filter as written, on two pieces of a column, gives the first piece's result followed by the second's |
| Tablemaker.FilteredSingle | tablemaker.py:154 | The filter as written keeps a single entry, once, exactly when it is present and nonzero |
| Tablemaker.FilterDropsZero | tablemaker.py:154 | On `[0, 2]` the filter as written keeps `[2]` and the corrected one keeps `[0, 2]` |
| Tablemaker.FilterAgreesWithoutZeros | tablemaker.py:154 | On a column without zeros, both filters agree |
| Tablemaker.PaddingKeepsStats | tablemaker.py:67-68 | The constructor's `None` padding changes no column's statistics |
| Tablemaker.ResolveDigit | tablemaker.py:165-166 | A given nonzero digit is kept. An unset one (`None` or 0) becomes the first-nonzero position of the standard error, and fails with the `int('e')` error exactly when that error prints in exponent notation |
| Tablemaker.ZeroDigitRecomputed | tablemaker.py:165 | An explicit digit 0 is recomputed, exactly like a missing one |
| Tablemaker.ResolveAll | tablemaker.py:164-166 | Every column's digit on success. A failure happens exactly when some column's digit fails, and it carries the `int('e')` error |
| Tablemaker.Labs.ResolveDigits | tablemaker.py:164-166 | The loop's result is `ResolveAll` of the digits it started with. On success it stores every resolved digit. On failure it has stopped at the first failing column: every column before it holds its resolved digit, and that column and all after it hold their old digits. Nothing else changes |
| Tablemaker.Labs.PrintStats | tablemaker.py:168-170 | Every mean and standard error is printed with its column's digit |
| Tablemaker.Labs.StatValues | tablemaker.py:135-170 | The digits resolve from the standard errors of the present entries. On success it stores them, with the means and standard errors printed with them. A failure is the `int('e')` error of the first failing column, after which the columns before it hold their resolved digits, the rest their old ones, and the printed statistics are unchanged. Data, headers and sizes are unchanged |
| Tablemaker.StatValuesExample | test_labs_pytest.py:22-29 | With the fixed decimals `ExampleMeans` and `ExampleSes` standing in for numpy's means and standard errors of the test columns, the digits are `[0, 1, 2, -1, 3]`, the means print as `1, 2,0, 0,05, 80, 0,267` and the standard errors as `0, 0,5, 0,02, 30, 0,136` |
| Tablemaker.Opening | tablemaker.py:215-218 | The opening declares one column per data column, plus one for the count column |
| Tablemaker.OpeningAsWritten | tablemaker.py:215-218 | With a count column it is the opening above. Without one, calling `beginning()` with no width raises `TypeError` |
| Tablemaker.Entry | tablemaker.py:238-245 | A cell is missing exactly when the entry is `None` |
| Tablemaker.CellText | tablemaker.py:238-245 | A literal cell prints as its own text and a missing entry as ` - `. A number prints as text other than ` - ` that reads back as the entry rounded with the column's digit, starts with `-` exactly when the entry is negative, and has no leading zero in its integer part |
| Tablemaker.Labs.RowCells | tablemaker.py:235-245 | The cells of data row `i` are the row's 1-based number when counting, then entry `i` of every column |
| Tablemaker.Labs.BodyRows | tablemaker.py:234-246 | The row loop yields every data row, each followed by a rule |
| Tablemaker.Labs.MakeTable | tablemaker.py:193-264 | It fails exactly when resolving the digits fails, with the `int('e')` error and the digits left as `StatValues` states. Otherwise the resolved digits are stored and the table is the opening, the headers between rules, the data rows, the statistics rows when asked for, and the ending, with data and digits as `stat_values` leaves them |
| Tablemaker.TableShape | tablemaker.py:214-264 | The table has `6 + 2m` lines, plus 5 with statistics. It opens with the opening, a rule, the header and two rules. The statistics lines are a rule, the mean row, a rule, the standard-error row and a rule. It closes with the ending |
| Tablemaker.TableDataRows | tablemaker.py:233-246 | Data row `i` is line `5 + 2i` of the table, and a rule follows it |
| Tablemaker.HeaderCells | tablemaker.py:223-229 | The header row has `\#` first when counting, then `\tabh{quantity}{unit}` for every quantity, in order |
| Tablemaker.StatCells | tablemaker.py:249-261 | A statistics row has its label first when counting, then every printed statistic of the columns, in order |
| Tablemaker.Table | tablemaker.py:214-264 | The table has `6 + 2m` parts, plus 5 with statistics, starts with the opening for the requested width and ends with the ending |
| Tablemaker.RowWidths | tablemaker.py:215-262 | The header, every data row and both statistics rows have as many cells as the opening declares |
| Tablemaker.StatRowsAsWritten | tablemaker.py:249-261 | As written, each statistics row starts with its label cell and has one cell per column after it, whether or not there is a count column |
| Tablemaker.StatRowsTooWide | tablemaker.py:249-261 | The statistics rows as written have one cell more than the opening declares when there is no count column, and equal the corrected rows when there is one |
| Tablemaker.DataCellsAt | tablemaker.py:235-245 | Reading row `i` back gives `i + 1` when counting. Each column's cell is ` - ` for a missing entry, and otherwise text that reads back as the entry rounded with the column's digit |
| Tablemaker.TableText | tablemaker.py:177-264 | The printed table has `11 + 2m` lines, plus 5 with statistics. Its first three lines are those of `beginning` with the declared width, and its last four those of `ending` |
| Tablemaker.Render | tablemaker.py:174-189 | A rule prints one `\hline` line, the opening three lines and the ending four. A row prints one line, which ends in ` \\ ` as at tablemaker.py:229, 245, 255 and 261 |
| Tablemaker.RenderAll | tablemaker.py:214-264 | The printed lines of a table are at least as many as its parts and begin with the lines of its first part |
| Tablemaker.RenderBeginExample | tablemaker.py:177-183 | A three-column opening declares one `r` column specification per column |
| Tablemaker.RenderRowExample | tablemaker.py:236-245 | Cells are joined by ` & ` and closed by ` \\ `, and a missing entry prints as ` - ` |

## Left out

- The numpy mean and standard deviation (tablemaker.py:160-161) are the parameters `meanOf` and `seOf`. They are functions of a column's kept entries, and their arithmetic is not modelled.
- Floats are modelled as the exact decimals they print as. Binary rounding error in `np.around` and in `std` is not modelled, so a value whose float lies just beside a tie may round the other way in the source.
- Python `-0.0` as an input entry is not modelled (a decimal zero has no sign). A negative float that rounds to zero keeps its minus sign, as `-0.0` prints.
- Formatting.Prettify: entries are not marked as Python ints or floats, and every entry is printed as a float. A negative int entry that rounds to zero at a negative digit (`-4` at digit -1) prints as `-0` in the model. numpy rounds an int to the int `0`, so the source prints `0`. Any other int entry prints the same either way.
- The type checks are excluded by the Dafny types: non-dict, non-string, non-list, non-number and non-int inputs, and non-bool flags (tablemaker.py:24-39, 45-46, 51-53, 92-93, 123-124, 146-153, 155-157, 206-210). So is the flat-list data of test_labs_pytest.py:16-20, which the source rejects at tablemaker.py:34-36 before the length checks those tests are about; InitErrorExamples and InitErrorDigitsExamples check the column shapes those tests mean instead. The test at line 12 fails at tablemaker.py:21-22 on its empty dict, and the one at line 14 at tablemaker.py:41-42, as InitErrorExamples states.
- Tablemaker.Labs.StatValues requires every column to have a present entry. On an all-`None` column the source's mean and standard error are NaN. With an unset digit, `first_nonzero(nan)` then scans the text `nan` and raises `ValueError` from `int('n')` (tablemaker.py:96-97). With a given digit, both print as `nan`.
- Tablemaker.Labs.StatValues: on failure the model keeps the old printed means and standard errors. The source has already replaced them with raw floats at lines 160-161 when `first_nonzero` raises.
- Tablemaker.Labs.MakeTable requires every column to have a present entry, for the same reason as StatValues.
- Distinct header keys are not modelled. The headers are the dict's items as a sequence of pairs, so the model would accept a repeated quantity name, which a Python dict cannot hold. No operation of the model depends on the names being distinct.
- Aliasing is not modelled. The constructor pads the caller's own lists (tablemaker.py:58, 67-68), and a given `rounding_digits` list is the caller's list that `stat_values` overwrites. The model copies values.
- Printing to stdout (tablemaker.py:174-189 and the prints of `make_table`) is modelled as returned `Line` values and their text (`Render`), not as output.
- `hline`, `beginning` and `ending` are modelled through `Render` of `Hline`, `Begin` and `End`, not as separate operations.

## Findings

| source | as written | input that shows it | evidently intended | confidence | as-written member | corrected member |
|---|---|---|---|---|---|---|
| tablemaker.py:218 | `self.beginning()` passes no column count when `count` is false | `make_table(count=False)` on any table raises `TypeError` | `self.beginning(self.n)` | high, not executed | Tablemaker.OpeningAsWritten | Tablemaker.Opening |
| tablemaker.py:154 | `filter(None, ...)` drops zeros as well as `None` | the column `[0, 2]` gets mean 2 instead of 1 | drop only `None` entries | high, not executed | Tablemaker.FilteredAsWritten | Tablemaker.Present |
| tablemaker.py:249-262 | the label cells `$\bar{x}$` and `$\sigma_0$` are printed whether or not there is a count column | `make_table(count=False, stats=True)` with `n` columns prints statistics rows of `n + 1` cells in a tabular of `n` columns (reachable once the opening is corrected) | print the label only in the count column | medium, not executed | Tablemaker.StatRowsAsWritten | Tablemaker.StatCells |
