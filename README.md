# Commercial real estate transaction extractor: field cleaning, record shaping and table update

The extractor turns a news article about a property sale into one row of a spreadsheet. It runs three stages:

1. A language model extracts the transaction as a JSON object.
2. `clean_and_format_data` normalises the four numeric fields and builds a record with eleven columns.
3. `extract_and_update_db` appends that record to the table stored at the database path.

This project models stages 2 and 3 and the four cleaners in Dafny, and proves what they do. The modules are:

- `Wrappers`: `Option` and `Result`.
- `PyText`: the Python string operations the cleaners chain together. These are `str.lower`, `str.strip`, `str.replace(w, '')`, the `in` test and the `re.sub` character-class filter.
- `PyNumber`: `int()` and `float()` on the strings the cleaners hand them. A number is an exact `real`.
- `Cleaners`: the JSON value type, the four cleaners (`convert_price_to_number`, `clean_yield`, `clean_area`, `clean_price_psf`) and how one is applied to whatever `data.get` returned.
- `Formatting`:
  - the dictionary, as a class updated in place;
  - the four cleaning statements;
  - the record with its eleven columns, including the `"Yield"` to `"Yield "` rename;
  - `clean_and_format_data` as a method.
- `Pipeline`:
  - the stored table and the file that holds it;
  - the read-or-create, concatenate and write sequence;
  - `extract_and_update_db` as a method that returns false on any stage failure and writes nothing then.
- `Examples`: the worked examples, each derived from the general lemmas.

Two behaviours of the code are easy to misread. The model follows the code:

- **Price fallback.** The comment on line 49 says the original string is returned when the price does not parse. The code returns the processed text: lower-cased, with `$`, `,` and the unit word removed, and stripped.
- **Numbers in numeric fields.** The cleaners expect strings. A field that already holds a number is not passed through. A non-zero number has no `lower`/`replace` method, so the cleaner raises `AttributeError`. The formatting stage then fails and the run returns false. A zero is falsy, so it becomes None.

## Model

| member | source | states |
|---|---|---|
| PyText.Lower | cre_extractor.py:36 | `str.lower` keeps the length, maps each character on its own, and leaves no capital letter |
| PyText.Strip | cre_extractor.py:36 | `str.strip()` returns a contiguous slice of the input with only whitespace before and after it, and no whitespace at either of its own ends |
| PyText.Contains | cre_extractor.py:39 | `w in s` holds only when `w` fits in `s`, and always for the empty word |
| PyText.RemoveAll | cre_extractor.py:36 | `str.replace(w, '')` never lengthens the text |
| PyText.RemoveAllMembers | cre_extractor.py:36 | every character left after `str.replace(w, '')` was in the input |
| PyText.Keep | cre_extractor.py:56 | the `re.sub` filter keeps only characters of the class and never lengthens the text |
| PyText.KeepMembers | cre_extractor.py:56 | a character survives the filter iff it occurs in the input and belongs to the class |
| PyText.KeepIdempotent | cre_extractor.py:78 | the digits-and-dots filter is idempotent: filtering twice is filtering once |
| PyText.KeepRemoveAll | cre_extractor.py:56 | removing a word that holds no character of the class does not change what the filter keeps |
| PyText.KeepStrip | cre_extractor.py:56 | stripping does not change what a filter without whitespace keeps |
| PyText.KeepLower | cre_extractor.py:67 | lower-casing does not change what a digit filter keeps |
| PyNumber.ParseDecimalAccepts | cre_extractor.py:57-58 | a string of digits and dots parses iff it holds at least one digit and at most one dot |
| PyNumber.ParseDecimalValue | cre_extractor.py:57-58 | a parsed literal is the integer its digits write, divided by ten to the number of digits after the point |
| PyNumber.ParseInt | cre_extractor.py:69 | `int()` succeeds only on at most 4300 digits, and the number is below ten to the number of digits |
| PyNumber.ParseIntShowNat | cre_extractor.py:69 | `int()` of a number's decimal rendering gives the number back, for renderings of at most 4300 digits |
| PyNumber.DigitsValueShowNat | cre_extractor.py:69 | the digits of a number's decimal rendering denote the number |
| PyNumber.ParseDecimal | cre_extractor.py:58 | an unsigned decimal literal never denotes a negative number |
| PyNumber.ParseFloat | cre_extractor.py:47 | `float()` rejects the empty string, and gives a negative number only for text that starts with `-` |
| PyNumber.ParseDecimalShowNat | cre_extractor.py:80 | `float()` of a number's decimal rendering gives the number back |
| Cleaners.PriceText | cre_extractor.py:36 | the processed price text holds no capital, `$` or `,`, and has no whitespace at either end |
| Cleaners.PriceUnit | cre_extractor.py:38-44 | the multiplier is 10^6 iff the text holds "million", and 10^9 iff it holds "billion" and no "million", else 1; the remaining text is the text with every occurrence of the chosen word removed and then stripped, or the text unchanged when there is no unit word |
| Cleaners.ConvertPriceToNumber | cre_extractor.py:33-49 | None iff the price is empty; otherwise the number `float()` reads from the text left after processing and the unit word, times the unit's multiplier, exactly when `float()` accepts that text, and else that text itself: with no capital, `$` or `,`, and no whitespace at either end |
| Cleaners.YieldText | cre_extractor.py:56 | the yield text before filtering is no longer than the input and has no whitespace at either end |
| Cleaners.CleanYield | cre_extractor.py:52-60 | None iff the input is empty; otherwise a non-negative number or the input verbatim |
| Cleaners.AreaText | cre_extractor.py:67 | the area text before filtering is no longer than the input and has no whitespace at either end |
| Cleaners.CleanArea | cre_extractor.py:63-71 | None iff the input is empty; otherwise a non-negative integer or the input verbatim |
| Cleaners.PricePsfText | cre_extractor.py:78 | the price-per-area text before filtering is no longer than the input and has no whitespace at either end |
| Cleaners.CleanPricePsf | cre_extractor.py:74-82 | None iff the input is empty; otherwise a non-negative number or the input verbatim |
| Cleaners.Apply | cre_extractor.py:34-36 | a cleaner applied to a value raises exactly when the value is truthy and not a string |
| Cleaners.NullExactlyWhenFalsy | cre_extractor.py:85-88 | each cleaner gives None exactly for a falsy value: a missing key, `""`, zero, false or an empty container |
| Cleaners.NumbersAreRejected | cre_extractor.py:36 | a number in a numeric field raises iff it is non-zero; it is never passed through |
| Cleaners.PriceDigitsUnchanged | cre_extractor.py:36-44 | for every price, the digits and dots of the text handed to `float()` are those of the price, in order |
| Cleaners.PriceWithUnit | cre_extractor.py:36-47 | `"$X million"` / `"$X billion"` with X of digits, dots and commas give X without commas times 10^6 / 10^9, or that text when it does not parse |
| Cleaners.PriceWithoutUnit | cre_extractor.py:36-47 | `"$X"` with no unit word gives X without commas with multiplier 1, or that text when it does not parse |
| Cleaners.PriceUnitOfWord | cre_extractor.py:39-44 | a number's text followed by a unit word selects that word's multiplier and loses the word and the blank |
| Cleaners.NoMillionBeforeBillion | cre_extractor.py:39-42 | the text of a "billion" price holds no "million", so the second branch is taken |
| Cleaners.PriceTextWithUnit | cre_extractor.py:36 | lower-casing, dropping `$` and `,` and stripping leave a unit-word price as its amount without commas, then the word |
| Cleaners.PriceFallbackDiffersFromInput | cre_extractor.py:48-49 | a non-parsing price holding a capital, `$` or `,` does not come back as given |
| Cleaners.YieldFilterUnchanged | cre_extractor.py:56 | removing "about", "per cent" and "%" and stripping do not change the digits and dots the filter keeps |
| Cleaners.YieldIsDigitsAndDots | cre_extractor.py:56-60 | the yield is the decimal literal of the input's digits and dots, or the input verbatim when that does not parse |
| Cleaners.YieldParsesIff | cre_extractor.py:56-60 | the yield parses iff the input has a digit and its digits and dots hold at most one dot; otherwise the input comes back verbatim |
| Cleaners.YieldValue | cre_extractor.py:56-58 | a parsed yield is the value of the input's digits placed by its one point, and never negative |
| Cleaners.AreaFilterUnchanged | cre_extractor.py:67 | lower-casing, removing "sq ft" and "," and stripping do not change the digits the filter keeps |
| Cleaners.AreaIsDigits | cre_extractor.py:67-71 | the area is the integer written by the input's digits alone, and the input comes back verbatim iff it holds no digit or more than 4300 digits |
| Cleaners.PricePsfFilterUnchanged | cre_extractor.py:78 | lower-casing, removing "$", "per square foot" and "psf" and stripping do not change the digits and dots kept |
| Cleaners.PricePsfIsDigitsAndDots | cre_extractor.py:78-82 | the price per square foot is the decimal literal of the input's digits and dots, or the input verbatim |
| Cleaners.PricePsfParsesIff | cre_extractor.py:78-82 | it parses iff the input has a digit and at most one dot among its digits and dots; otherwise the input comes back verbatim |
| Cleaners.PricePsfValue | cre_extractor.py:78-80 | a parsed price per square foot is the value of the input's digits placed by its one point, and never negative |
| Formatting.Get | cre_extractor.py:85-102 | `data.get(k)` is the stored value when the key is present, and a value other than None only then |
| Formatting.Step | cre_extractor.py:85-88 | after an exception a cleaning statement changes nothing; one that raises leaves the dictionary as it was; no key is lost; on success the key holds the cleaner's result on the value it had before |
| Formatting.StepFrame | cre_extractor.py:85-88 | a cleaning statement leaves every other key as it was, and raises iff an earlier one did or its cleaner raises on the value |
| Formatting.CleanFields | cre_extractor.py:85-88 | the four statements lose no key, and after a clean run all four numeric keys are present |
| Formatting.BuildRecord | cre_extractor.py:91-103 | the record has the eleven output columns, in order, each holding the value of its source key |
| Formatting.FormatRecord | cre_extractor.py:84-105 | a successful format has the eleven output columns in order; a failure reports the exception the cleaning statements raised |
| Formatting.PairsToMap | cre_extractor.py:123 | the dictionary built from the JSON object's pairs has exactly the keys that occur in them |
| Formatting.PairsToMapLast | cre_extractor.py:123 | a key holds the value of its last pair |
| Formatting.CleanFieldsSucceeds | cre_extractor.py:85-88 | when no cleaner raises, the dictionary is updated at the four numeric keys with each cleaner's result on the value as extracted, and nowhere else |
| Formatting.CleanFieldsFails | cre_extractor.py:85-88 | the exception raised is the `AttributeError` of the first numeric field, in statement order, that holds a truthy non-string |
| Formatting.FormatRecordFails | cre_extractor.py:84-105 | formatting fails iff one of the four numeric fields holds a truthy non-string |
| Formatting.RecordColumns | cre_extractor.py:91-103 | the record has exactly the eleven output columns, in order, whatever the dictionary held |
| Formatting.OutputColumnsDistinct | cre_extractor.py:91-103 | the eleven column names are distinct |
| Formatting.RecordLookup | cre_extractor.py:91-103 | each column holds the value of its source key (None when missing); "Yield " is read from "Yield" |
| Formatting.RecordLookupOther | cre_extractor.py:91-103 | a name outside the eleven columns has no column in the record |
| Formatting.FormattedRecord | cre_extractor.py:84-105 | a successful format means no numeric field raised; it has the eleven columns, copies the seven text fields unchanged, and holds each cleaner's result in its numeric column |
| Formatting.OtherKeysIgnored | cre_extractor.py:91-105 | changing a key that is neither a column's source nor a numeric field does not change the outcome |
| Formatting.CleanAndFormatData | cre_extractor.py:29-105 | the method returns the record or the first exception, and leaves the dictionary updated in place at the numeric keys cleaned before it stopped |
| Pipeline.Formatted | cre_extractor.py:123-136 | a reply that parsed to a JSON object gives a record iff none of its four numeric fields holds a truthy non-string; any other reply gives none; a record has the eleven output columns in order |
| Pipeline.EntryTable | cre_extractor.py:151 | the new-entry table has the record's keys as header and one row with a cell under exactly those columns |
| Pipeline.Concat | cre_extractor.py:154 | the rows of both tables, in order; the header keeps the first table's columns first and holds exactly the columns of either |
| Pipeline.UpdatedTable | cre_extractor.py:141-154 | the stored rows (none when no table could be read) followed by the record's row, under a header that keeps the stored columns first and adds the record's |
| Pipeline.ExistingTable | cre_extractor.py:141-148 | a missing or unreadable file gives an empty table whose header is the record's keys in order; otherwise the stored table |
| Pipeline.MergeColumns | cre_extractor.py:154 | the concatenated header keeps the existing columns first and holds exactly the columns of either table |
| Pipeline.MergeKnownColumns | cre_extractor.py:154 | concatenating a table whose columns are all present leaves the header as it was |
| Pipeline.MergeDistinct | cre_extractor.py:154 | a header without repeated names stays so |
| Pipeline.ExtractAndUpdateDb | cre_extractor.py:107-161 | returns true iff extraction, formatting and the write all succeed; then the file holds the old table with the record appended; on any failure the file is unchanged |
| Pipeline.EntryRowCells | cre_extractor.py:151 | the new row holds, under each output column, the record's value for it |
| Pipeline.FirstEntry | cre_extractor.py:141-154 | with no readable file, the result is one row under the eleven output columns |
| Pipeline.AppendsOneRow | cre_extractor.py:151-154 | the existing rows are kept in order and the record's row comes last, so there are N+1 rows |
| Pipeline.HeaderStable | cre_extractor.py:154 | once the header is the eleven output columns, later updates keep it |
| Pipeline.SuccessfulRunRecord | cre_extractor.py:130-157 | a successful run appends exactly the formatted record, under the eleven output columns |
| Examples.YieldExample | cre_extractor.py:56-58 | `"about 4.1 per cent"` gives 4.1 |
| Examples.YieldWithFullStopExample | cre_extractor.py:56-60 | `"4.1 per cent."` holds two dots after filtering and comes back verbatim |
| Examples.AreaExample | cre_extractor.py:67-69 | `"195,772 sq ft"` gives 195772 |
| Examples.FractionalAreaExample | cre_extractor.py:67-69 | `"1,234.5 sq ft"` gives 12345: the decimal point is dropped |
| Examples.PricePsfExample | cre_extractor.py:78-80 | `"$4,100 per square foot"` gives 4100.0 |
| Examples.PriceExample | cre_extractor.py:36-47 | `"$809 million"` gives 809000000.0 |

## Left out

- The language-model request, its prompt and the extraction schema (cre_extractor.py:8-27, 113-120) are not modelled. They call a network service. The outcome is an input, `Extraction`: either the parsed JSON value or a failure. The schema's `required` list is never enforced by the code.
- `json.loads` is modelled only as the step from an object's pairs to a dictionary, in which a later pair wins. A reply that is valid JSON but not an object fails at `data.get`, which the model treats as a formatting failure.
- Floating point is not modelled. A number is the exact rational its literal denotes, so the rounding of `float()` and of `* 1_000_000` is absent.
- `float()` is modelled on an optional sign and a plain decimal literal. Only the price path can see the extra syntax Python also accepts: exponents, `inf`/`nan`, `_` separators and non-ASCII digits. The model treats these as parse failures.
- PyNumber.ParseInt: the limit of 4300 digits is CPython's default. A program can change it with `sys.set_int_max_str_digits` or the `PYTHONINTMAXSTRDIGITS` variable, and releases that predate the limit have none; the model fixes the default. The limit counts every digit, leading zeros included, as the model does.
- `str.lower` is modelled on ASCII letters only. The strings the cleaners filter keep only ASCII digits and dots, so this affects only the price fallback text.
- The spreadsheet format is not modelled. `read_excel` and `to_excel` are reduced to a file that is missing, unreadable or holding a table. The typing of cells is left out: a missing cell is an empty cell here, where pandas fills NaN. So are the renaming of duplicate headers and the reordering of columns.
- Pipeline.ExtractAndUpdateDb: whether the write succeeds is an input. A failed write is modelled as leaving the file as it was; a partly written file is not modelled.
- Logging and every `print` are left out, as is the command-line entry point (cre_extractor.py:163-182), which reads the article file and exits.
- The web front end, app.py, is not part of this model.
- Two writers updating the same file at once are not modelled. The code has no locking.
