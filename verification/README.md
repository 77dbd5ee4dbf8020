# Scrape, clean and analyse product prices — a Dafny model

The repository is a small data pipeline in two scripts. The scraper fetches
a product listing page and reads every product card (`div.thumbnail`) into a
row of title, description and price text. The analysis script loads that
file (`.csv` or `.xlsx`, chosen by name). It strips `$` and `,` from the
price column and converts it to numbers. It prints the five most expensive
products and saves the cleaned table. Every analysis stage wears two logging
decorators: one times the call, the other logs its start and completion.

This project models that core as pure functions over immutable data:

- `Results`: the exceptions the pipeline raises, as an `Error` datatype, and
  a `Result` type.
- `Text`: Python's `str.isspace`, `str.strip` and `str.endswith`.
- `Decimals`: `float()` on plain decimal text, over exact decimals (mantissa
  and scale), with a formatter that inverts it.
- `Tables`: the DataFrame as named columns and rows of cells (text, number,
  or missing value).
- `FileFormats`: the suffix dispatch of the loader and of the saver, over an
  abstract file store.
- `Cleaning`: the price column's regex replacement and `astype(float)`.
- `PriceExamples`: worked examples of cleaning single prices.
- `Ranking`: `nlargest(5, 'price')`, as repeated selection of the best
  remaining row.
- `Html`: a parsed document, with BeautifulSoup's `find` and `find_all`.
- `Scraper`: `fetch_page`, `parse_product` and `scrape`.
- `Decorators`: `medirTiempo` and `registrarEjecucion`, threading a clock and
  a log through each call.
- `Analysis`: the four decorated stages and the script that runs them.

## Model

| member | source | states |
|---|---|---|
| Text.Strip | src/scraping/scraper.py:39-43 | The result has no whitespace at either end, is no longer than the input, and is empty exactly when the input is all whitespace. |
| Text.StripUnpads | src/scraping/scraper.py:39-43 | Whitespace padding around a trimmed text is removed and the text itself is kept exactly. |
| Text.StripIdempotent | src/scraping/scraper.py:39-43 | Stripping twice gives the same text as stripping once. |
| Text.StripSplits | src/scraping/scraper.py:39-43 | Every text is its leading whitespace, then its stripped core, then its trailing whitespace, in that order. |
| Decimals.ParseFloat | src/analysis/analysis.py:44 | A text that is not a number is rejected with an error naming that text; an accepted text holds no information separator (U+001C to U+001F), which `float()` neither strips nor reads. |
| Decimals.ParseFormat | src/analysis/analysis.py:44 | Parsing the plain decimal rendering of any number gives back the same mantissa and scale (round trip). |
| Decimals.ParseIgnoresPadding | src/analysis/analysis.py:44 | A text parses exactly when it holds no separator and its `str.strip()` core parses, and then to the same number: other whitespace around a number changes nothing. |
| Decimals.ParseSpelling | src/analysis/analysis.py:44 | Every text made of whitespace (no separators), an optional `-` or `+`, digits, an optional point and digits, with at least one digit, parses to its digits read together, negated after `-`, with as many decimal places as digits after the point. |
| Decimals.SpellingOfParsed | src/analysis/analysis.py:44 | Conversely, every text that parses has exactly that layout and parses to the number the layout denotes; with `ParseSpelling` this characterises the accepted texts. |
| FileFormats.Classify | src/analysis/analysis.py:21-26 | A name selects CSV exactly when it ends in `.csv`, Excel exactly when it ends in `.xlsx`; any other name is the unsupported-format error. |
| FileFormats.Read | src/analysis/analysis.py:22-24 | A reader succeeds exactly when a file of its format is stored under the path, and returns that file's table. |
| FileFormats.Load | src/analysis/analysis.py:21-26 | Loading uses the reader of the format the name selects; an unsupported name fails before anything is read. |
| FileFormats.Save | src/analysis/analysis.py:80-85 | Saving writes the table under the path in the selected format and changes no other file; an unsupported name leaves the store untouched. |
| FileFormats.LoadSaveAgree | src/analysis/analysis.py:80-85 | The loader and the saver accept and reject exactly the same names, with the same format and the same error kind. |
| FileFormats.SaveThenLoad | src/analysis/analysis.py:80-83 | A table saved under a supported name loads back unchanged, and every other name loads as before. |
| FileFormats.ExactSuffixes | src/analysis/analysis.py:21-23 | Suffix matching is exact and case-sensitive: `.CSV`, `.xls`, `.csv.bak` and `.json` are rejected. |
| Cleaning.RemoveSymbols | src/analysis/analysis.py:44 | No `$` or `,` is left in the result, and it is no longer than the input. |
| Cleaning.RemoveSymbolsKeepsOthers | src/analysis/analysis.py:44 | Every character other than `$` and `,` occurs in the result exactly as many times as in the input. |
| Cleaning.RemoveSymbolsConcat | src/analysis/analysis.py:44 | Symbol removal works piecewise: removing from a concatenation concatenates the removals. |
| Cleaning.RemoveSymbolsIdempotent | src/analysis/analysis.py:44 | Removing the symbols twice gives the same text as removing them once. |
| Cleaning.CleanCell | src/analysis/analysis.py:44 | A text price converts exactly when its symbol-free text parses, and then to the number that text parses to; numbers and missing values pass through unchanged; no converted cell is text; a failure is a not-a-number error. |
| Cleaning.ConvertColumn | src/analysis/analysis.py:44 | Converting a column succeeds exactly when every cell converts. Each row then differs only in that column's cell; otherwise the error is that of the first cell that fails, all earlier cells converting. |
| Cleaning.CleanRows | src/analysis/analysis.py:44 | All rows convert exactly when every price cell converts; each row then differs only in its price cell; otherwise the error is that of the first price that fails to clean. |
| Cleaning.Clean | src/analysis/analysis.py:44 | A table without a price column is a missing-column error; otherwise cleaning succeeds exactly when every price converts, and a failure is a not-a-number error; a cleaned table keeps the columns and the number of rows. |
| Cleaning.CleanOnlyTouchesPrice | src/analysis/analysis.py:44-47 | Cleaning keeps the table well formed, changes no cell outside the price column, and leaves every price a number or missing. |
| Cleaning.CleanFailsOnBadPrice | src/analysis/analysis.py:44 | One price that is not a number fails the whole stage; the row is not dropped. |
| Cleaning.CleanIdempotent | src/analysis/analysis.py:44 | Cleaning a cleaned table reproduces it. |
| PriceExamples.ExampleThousands | src/analysis/analysis.py:44 | "$12,345.67" cleans to 12345.67. |
| PriceExamples.ExampleZero | src/analysis/analysis.py:44 | "$0" cleans to 0. |
| PriceExamples.ExamplePlain | src/analysis/analysis.py:44 | A price with no symbols, "42.50", keeps its value 42.50. |
| PriceExamples.ExampleDecimalComma | src/analysis/analysis.py:44 | "$9,99" cleans to 999: the comma is removed even when it is a decimal comma. |
| PriceExamples.ExampleBareSign | src/analysis/analysis.py:44 | "$" alone leaves an empty text, which is not a number, so cleaning fails. |
| PriceExamples.ExampleTrailingPoint | src/analysis/analysis.py:44 | "5." is the number 5. |
| PriceExamples.ExampleLeadingPoint | src/analysis/analysis.py:44 | "-.5" is the number -0.5. |
| PriceExamples.ExampleUnicodePadding | src/analysis/analysis.py:44 | A no-break space pads a number like a blank: " 7" followed by U+00A0 is 7. |
| PriceExamples.ExampleSeparatorPadding | src/analysis/analysis.py:44 | "5" followed by U+001C strips to "5" but is no number. |
| Ranking.Best | src/analysis/analysis.py:64 | The chosen row is still free and no free row ranks above it; every earlier free row ranks strictly below it (first of equals wins); there is no row exactly when none is free. |
| Ranking.Select | src/analysis/analysis.py:64 | Selection yields n distinct free rows, or all of them when fewer are free. |
| Ranking.SelectDescending | src/analysis/analysis.py:64 | The selected rows are in descending price order, and equal prices keep their row order. |
| Ranking.SelectDominates | src/analysis/analysis.py:64 | Every row left out ranks at or below every selected row. |
| Ranking.PriceKeys | src/analysis/analysis.py:64 | A missing price column is a key error; a price column holding text is a type error; otherwise each row's key is its price, with missing below every number. |
| Ranking.TopIndices | src/analysis/analysis.py:64 | `nlargest(n)` picks min(n, rows) distinct rows, in descending order with ties in row order, and no row left out ranks above a row picked. |
| Ranking.NLargest | src/analysis/analysis.py:64 | The report's rows are the table's rows at the ranked positions, in ranked order. |
| Ranking.Analyze | src/analysis/analysis.py:59-64 | The report fails exactly when the price column is missing or holds text. Otherwise it shows five rows, or every row when the table has fewer: the table's rows at the positions `nlargest(5)` ranks first, most expensive first, ties in row order. |
| Ranking.AnalyzeSucceeds | src/analysis/analysis.py:64 | Once every price is a number or missing, the report cannot fail. |
| Html.Filter | src/scraping/scraper.py:66 | Selection keeps exactly the nodes that match the tag and the class. |
| Html.FindAll | src/scraping/scraper.py:66 | `find_all` lists only matching elements, and every matching descendant of the node; a text node has none. |
| Html.FilterCounts | src/scraping/scraper.py:66 | Selection keeps each matching node exactly as many times as it occurs, and no other node. |
| Html.FindAllCounts | src/scraping/scraper.py:66-74 | `find_all` lists each matching descendant exactly as often as it occurs, so the scrape loop reads every `div.thumbnail` card once. |
| Html.Find | src/scraping/scraper.py:39-43 | What `find` returns has the requested tag and class. |
| Html.FindIsFirstOfFindAll | src/scraping/scraper.py:39-43 | `find` returns the first element that `find_all` lists, and nothing exactly when that list is empty. |
| Html.TextOf | src/scraping/scraper.py:39-43 | The text of an element is the texts of its text-node descendants, concatenated in document order. |
| Scraper.Fetch | src/scraping/scraper.py:21-25 | The page body is returned exactly when the status is 200; any other status fails, naming the URL. |
| Scraper.Field | src/scraping/scraper.py:39 | A field is read exactly when its element is found, and it has no whitespace at either end; a missing element is the missing-field error (the `AttributeError` of `None.text`). |
| Scraper.ParseProduct | src/scraping/scraper.py:39-49 | A card parses exactly when it has all three elements, and each field is the element's stripped text; the first missing element, in title, description, price order, is the error. |
| Scraper.ParsedFieldsStripped | src/scraping/scraper.py:39-43 | Stripping any parsed field again changes nothing. |
| Scraper.AsRow | src/scraping/scraper.py:45-49 | The record's keys are exactly title, description and price, and each holds the field's text. |
| Scraper.ToTable | src/scraping/scraper.py:76 | The table is well formed, has one row per product in order, and has the three columns, or none when there are no products. |
| Scraper.ParseEach | src/scraping/scraper.py:70-74 | The loop succeeds exactly when every card parses, and then keeps every record in card order; otherwise the error is that of the first failing card. |
| Scraper.Scrape | src/scraping/scraper.py:62-76 | A non-200 status fails naming the URL; otherwise there is one row per thumbnail card, each the record of that card; a page without cards gives an empty table; an incomplete card fails the run with the error of the first incomplete card. |
| Scraper.ExampleCardParses | src/scraping/scraper.py:39-49 | A card with a padded title yields the stripped title, the description and the raw price text. |
| Decorators.Timing | src/decorators/decorators.py:14-28 | The timed callable answers to the given name, returns exactly what the function returns, and leaves the clock where the function left it. |
| Decorators.TimingTransparent | src/decorators/decorators.py:14-26 | The timer returns the function's result and leaves the clock where the function left it. On success it adds one line naming the function and the elapsed ticks; on failure it adds nothing. |
| Decorators.ElapsedNonNegative | src/decorators/decorators.py:16-24 | A function that never turns the clock back is never logged with a negative duration. |
| Decorators.Logging | src/decorators/decorators.py:36-46 | The logged callable answers to the given name and returns what the function returns when run after the start line naming it. |
| Decorators.LoggingTransparent | src/decorators/decorators.py:36-44 | The logger returns the function's result. The function runs after the start line; the completion line follows only a successful call. |
| Decorators.DecorateAsWritten | src/analysis/analysis.py:5-6 | The stack as written answers to `wrapper`, and the stage runs after a start line naming `wrapper`, returning its own result. |
| Decorators.Decorate | src/analysis/analysis.py:5-6 | The corrected stack keeps the stage's name, and for every argument and world returns what the stage returns, and leaves the clock where it leaves it, when run after the start line naming it. |
| Decorators.DecoratedRun | src/analysis/analysis.py:5-7 | A decorated stage returns its body's result and costs exactly its own ticks. It logs start, timing and completion under its own name, or only the start line when it raises. |
| Decorators.AsWrittenLogsWrapper | src/decorators/decorators.py:36-44 | As written, the stacked decorators log start and completion under `wrapper`, unlike the corrected stack; a stage that raises leaves only the `wrapper` start line. |
| Analysis.CleanFrame | src/analysis/analysis.py:33-47 | The cleaning stage fails or succeeds as cleaning does, and returns a well-formed table. |
| Analysis.SaveTo | src/analysis/analysis.py:80-85 | The save stage succeeds exactly on a supported output name, and then holds the table under that name in the selected format. |
| Analysis.Processed | src/analysis/analysis.py:95-103 | The reference result of the script, without stages, clock or log: it succeeds exactly when the input loads, cleans and the output name is supported, and the output then loads back as the cleaned input. |
| Analysis.Pipeline | src/analysis/analysis.py:95-103 | The decorated run returns exactly the reference result. A successful run logs each stage's three lines in stage order and spends the four costs; an unsupported input name stops after the first start line. |
| Analysis.PipelineSucceeds | src/analysis/analysis.py:95-103 | The run succeeds exactly when the input loads, its prices clean and the output name is supported. The output file then holds the cleaned table and loads back as it. |
| Analysis.ProcessedRerunStable | src/analysis/analysis.py:95-103 | Processing the output again, in place, leaves the store unchanged. |
| Analysis.PipelineRerunStable | src/analysis/analysis.py:89-103 | Running the script again on its own output leaves the stored output unchanged. |

## Left out

- File contents: the store keeps whole tables. Writing CSV or Excel text and reading it back (number formatting, dtype inference) is not modelled. So `FileFormats.SaveThenLoad` holds for the abstract store, not for the bytes on disk.
- Decimals.ParseFloat: accepts an optional sign, then digits with an optional point and at least one digit on one side of it (`5`, `5.`, `.5`, `-5.25`), padded by any whitespace except U+001C to U+001F. Python's `float()` also accepts exponents, `inf`/`nan`, underscores between digits, and non-ASCII decimal digits (which it maps to ASCII); the model rejects those.
- Float rounding: prices are exact decimals. Binary floating point, and its effect on ordering ties, is not modelled.
- `datos.describe()` (analysis.py:61) and every `print` are console output only, and are left out. The report is modelled as the rows `nlargest` returns; the Python function returns `None` after printing them.
- Network and parsing: `requests.get` becomes a `Response` parameter, and the HTML parser becomes a function parameter of `Scraper.Scrape`. The document tree keeps tags, classes and text only; other attributes and the parser's repair of malformed HTML are not modelled.
- Logging format: the message text, timestamp, level and the four-decimal rendering of seconds are reduced to `Event` values. The wall clock is an integer tick counter, and each stage's duration is a parameter (`Analysis.Costs`).
- Decorated functions are modelled with a single positional argument; `*args, **kwargs` forwarding is not modelled.
- `limpiarDatos` assigns the cleaned column into the caller's DataFrame in place. The model returns a new table; the script rebinds `datos` to the result anyway.
- The module-level code of the scraper (scraper.py:80-90), which scrapes a fixed URL and writes the CSV, and `os.makedirs` in both scripts, are script plumbing and are not modelled.
- Cleaning.CleanCell: a missing price (NaN) stays missing after cleaning, as in the code. The stage does not guarantee a non-null price column.
- Ranking.PriceKeys: decides the text-column type error cell by cell, so a price column with no rows never fails. pandas decides by the column's dtype, and `nlargest` on an empty column of object dtype raises a `TypeError`. The script always ranks a cleaned table, whose price column is numeric, so the run never reaches that case.
- Analysis.Pipeline: the analysis stages use the corrected decorators (`Decorators.Decorate`), which keep each stage's name, so its log names `cargarDatos`, `limpiarDatos`, `analizarDatos` and `guardarDatosProcesados` in every line. As written, the script's start and completion lines name `wrapper` instead; that stack is modelled separately (`Decorators.DecorateAsWritten`, `Decorators.AsWrittenLogsWrapper`); see Findings.
- Results.Error: errors are modelled by kind, with a payload that identifies the failing path, column, text, URL or lookup. The Python messages of the unsupported-format `ValueError` (analysis.py:26, 85) and of the `AttributeError` on a missing card element (scraper.py:39-43) carry no such payload, and the loader's and the saver's messages differ in wording; the model gives both the same `UnsupportedFormat` kind.

## Findings

| source | as written | input that shows it | evidently intended | confidence | as-written member | corrected member |
|---|---|---|---|---|---|---|
| src/decorators/decorators.py:14-46 | Neither decorator copies the wrapped function's name (no `functools.wraps`). Under `@registrarEjecucion @medirTiempo`, the outer decorator sees the inner `wrapper`, so it logs the start and completion of a function called `wrapper`. | Any call of `cargarDatos("datos/no-procesados/productos.csv")`: the start line names `wrapper`, not `cargarDatos` | The start and completion lines name the decorated stage, as the timing line does | high; not executed | Decorators.AsWrittenLogsWrapper | Decorators.DecoratedRun |
