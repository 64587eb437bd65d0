# FFE far-field parsing and grid assembly, modelled in Dafny

This project models the parsing and data-assembly pipeline of a reader for FFE
far-field files. An antenna simulation tool writes these text files. Each file holds
one block per frequency. A block opens with a `#Configuration Name` line. It carries a
`#Frequency:` line, a comment header line naming the columns (`Theta`, `Phi`,
`Re(Etheta)`, ...), and rows of numbers.

The pipeline has three parts, and the model has one module for each:

- **NativeScanner** (`cpp/parser.cpp`). This is the C++ scanner.
  - `parse_header_line` tokenizes the line that holds the first `"Theta"`.
  - `parse_content` cuts the text into one section per line holding
    `#Configuration Name`. It reads each section's frequency after the first
    `#Frequency:`, collects every number `strtod` accepts (skipping `#` lines), and
    counts whole rows.
  - The model is imperative: each loop is a method proved against a function that
    specifies it.
- **LineParser** (`src/ffe_parse.py`). This is the pure-Python parser `FFEParser`.
  - It splits the lines of a file into blocks at the lines naming a configuration.
  - It sorts each block's lines into frequency, header and data lines, and rejects a
    block with no header or no data.
  - It strips `'` from the column names.
  - It merges the fields of several files: the last field for a frequency wins, and
    the frequencies come out ascending.
- **GridAssembler** (`src/ffe/utils/ffe2xr.py`). This is the converter `FFEToXarray`.
  - It checks that the scanned file has sections.
  - It sees each section's numbers through the two-dimensional `data` view the Python
    binding gives them.
  - It stacks the sections and locates the Theta and Phi columns (exact name, else
    lower case).
  - It takes the distinct values of those columns as axes, and rejects points that do
    not fill a grid.
  - It folds the spatial axis into (Theta, Phi) with numpy's Fortran-order reshape, and
    names one variable per other column.

Supporting modules:

- **Wrappers**: `Option` and `Result`.
- **Text**: C and Python string operations: `std::search`, `isspace`, `strip`,
  `split`, `replace`, `lower`.
- **Numbers**: the decimal numeral recogniser standing for `strtod` and `float()`.
- **Ordering**: sorting a finite set of reals, as `sorted` on dictionary keys and
  `np.unique` do.
- **FortranOrder**: `reshape(..., order='F')` and `swapaxes` on nested sequences.

Numbers are exact reals. Strings are sequences of characters. File reading is
replaced by the file's text (C++) or its list of lines (Python).

Three behaviours of the code that a reader might not expect:

- `parse` keeps the last field of a duplicated frequency: the dictionary comprehension
  at `src/ffe_parse.py:181` overwrites earlier entries.
- `FFEToXarray.convert` keeps the frequencies in the order of the sections; it neither
  sorts nor deduplicates them.
- The retry at `src/ffe/utils/ffe2xr.py:90` repeats the reshape of line 80; see
  "Findings".

## Model

| member | source | states |
|---|---|---|
| Text.Search | cpp/parser.cpp:76 | `std::search`: the result is the first position at which the pattern lies wholly inside the range, or the range's end when there is none |
| Text.RemoveChar | src/ffe_parse.py:113 | `replace(c, "")`: the result holds no `c`, is no longer than the input, and holds every other character of the input |
| Text.RemoveCharAppend | src/ffe_parse.py:113 | removing `c` from a concatenation removes it from each part, in order: the other characters keep their order and number |
| Text.RemoveCharOne | src/ffe_parse.py:113 | on one character, `replace` deletes it when it is `c` and keeps it otherwise |
| Text.AfterLast | src/ffe_parse.py:126 | `split(':')[-1]`: a suffix of the line without `:`, preceded by `:` when it is not the whole line |
| Text.StripChar | src/ffe/utils/ffe2xr.py:10 | `strip('"')`: the result neither starts nor ends with `"`, and a name without `"` is unchanged |
| Text.StripCharSlice | src/ffe/utils/ffe2xr.py:10 | `strip('"')` keeps a slice of the name with only `"` before and after it |
| Text.StripCharTrims | src/ffe/utils/ffe2xr.py:10 | `strip('"')` is the name with exactly its leading and trailing runs of `"` removed |
| Text.PyStrip | src/ffe_parse.py:126 | `str.strip()`: the input without its leading and trailing whitespace (through the contracts of `LStrip` and `RStrip`) |
| Text.PySplit | src/ffe_parse.py:138 | Python's `str.split()`: the fields between runs of whitespace, standing for the field splitting of `read_csv` with `sep=r'\s+'` |
| Text.SplitFromTokens | src/ffe_parse.py:138 | the fields of a whitespace split are non-empty and hold no whitespace |
| Text.SplitFromConcat | src/ffe_parse.py:138 | the fields of a whitespace split, put together, are the input with its whitespace deleted: no other character is lost, added or reordered |
| Text.AsciiLower | src/ffe/utils/ffe2xr.py:33 | `lower()` on ASCII: keeps the length, turns each letter A to Z into its own lower-case letter (32 code points on) and keeps every other character |
| Text.StripEmpty | src/ffe_parse.py:130 | `strip()` is empty exactly when every character is whitespace, so blank lines are never data |
| Numbers.NumeralEnd | cpp/parser.cpp:154-157 | where `strtod` stops: after leading spaces it consumes a numeral with at least one digit, or nothing |
| Numbers.NumeralChars | cpp/parser.cpp:154 | what `strtod` consumes past the leading spaces is digits, signs, points and exponent letters only |
| Numbers.NumeralValue | cpp/parser.cpp:154 | the value `strtod` returns at a position: the numeral's digits, fraction, sign and exponent, and 0.0 when it consumes nothing |
| Numbers.ParseFloat | src/ffe_parse.py:126-127 | `float()` succeeds only on non-blank stripped text that is one whole numeral |
| Ordering.SortedKeys | src/ffe_parse.py:182 | `sorted(keys)`: strictly ascending, and holding exactly the keys of the set |
| Ordering.MinimumExists | src/ffe_parse.py:182 | every finite non-empty set of keys has a least element, so the sort can proceed |
| NativeScanner.Tokenize | cpp/parser.cpp:43-63 | the tokens of a header line: runs of name characters ended by whitespace or `,`, with `#`, `"`, CR and LF skipped |
| NativeScanner.ParseHeaderLine | cpp/parser.cpp:43-63 | the loop's tokens are the header tokens of the line, each non-empty and free of separators and dropped characters, and together they are the line minus those characters |
| NativeScanner.TokensFromGood | cpp/parser.cpp:49-61 | every token pushed is non-empty and holds only name characters |
| NativeScanner.TokensFromConcat | cpp/parser.cpp:46-61 | the tokens put together are the line with `#`, `"`, CR, LF, whitespace and `,` deleted: no name character is lost |
| NativeScanner.DroppedCharJoins | cpp/parser.cpp:49 | a `#`, `"`, CR or LF inside a name never splits it: deleting it leaves the tokens unchanged |
| NativeScanner.HeadersOfFirstTheta | cpp/parser.cpp:75-93 | no `"Theta"` means no columns; otherwise the columns are the tokens of the whole line around the first `"Theta"`, bounded by line feeds |
| NativeScanner.ReadHeaders | cpp/parser.cpp:73-93 | the backward and forward line search of part A yields `Headers(content)` |
| NativeScanner.ScanStep | cpp/parser.cpp:134-164 | one iteration always advances; when `strtod` consumes nothing at a number-start character it steps exactly one character and pushes nothing |
| NativeScanner.ScanSkipsSpaces | cpp/parser.cpp:136-138 | starting the scan on a run of whitespace collects the same numbers as starting after it |
| NativeScanner.NumeralStaysOnLine | cpp/parser.cpp:154 | a numeral starting on a non-space never runs across a line feed |
| NativeScanner.StartsSplitAtNewline | cpp/parser.cpp:134-165 | nothing is carried across a line feed: a section's numbers are those before the line feed followed by those after it |
| NativeScanner.CommentLineContributesNothing | cpp/parser.cpp:140-145 | a line whose first non-space is `#` adds no numbers: the section's numbers are those before it followed by those after it |
| NativeScanner.ScanIteration | cpp/parser.cpp:134-164 | one pass of the loop body breaks exactly when `ScanStep` stops, and otherwise moves to `ScanStep`'s next position with its number |
| NativeScanner.Scan | cpp/parser.cpp:133-165 | the values `strtod` reads at the positions where the scan loop pushes a number |
| NativeScanner.ScanNumbers | cpp/parser.cpp:133-165 | the scan loop over a section pushes exactly `Scan(content, a, b)` |
| NativeScanner.FrequencyIsFirstTag | cpp/parser.cpp:122-131 | the frequency is `strtod` after the first `#Frequency:` lying wholly inside the section, and stays 0.0 when there is none |
| NativeScanner.SectionRowCount | cpp/parser.cpp:167-170 | with header names, `row_count` whole rows fit in the data and one more does not; without header names it stays 0 |
| NativeScanner.SectionOver | cpp/parser.cpp:121-172 | the section read from `[a, b)`: its frequency, its scanned numbers and its row count |
| NativeScanner.ScanSection | cpp/parser.cpp:121-172 | parts C and D give the section cut from `[a, b)`: its frequency, numbers and row count |
| NativeScanner.TagPositionsAreTags | cpp/parser.cpp:104-105 | each recorded position holds `#Configuration Name` |
| NativeScanner.TagPositionsOnLaterLines | cpp/parser.cpp:110-115 | each recorded tag lies on a later line than the one before it |
| NativeScanner.TagPositionsCoverTags | cpp/parser.cpp:102-176 | every tag lies on the line of a recorded one: one section per line holding the tag, and text before the first tag belongs to no section |
| NativeScanner.CutsFollowTags | cpp/parser.cpp:110-119 | section `k` is read from the end of the `k`-th tag's line to the next tag, the last one to the end of the buffer |
| NativeScanner.ParseContent | cpp/parser.cpp:68-179 | the headers are `Headers(content)`, and the sections are those cut at the tag lines, in file order |
| LineParser.StandardizeColumns | src/ffe_parse.py:108-114 | the rename loop yields every name with its `'` removed |
| LineParser.StandardizedNames | src/ffe_parse.py:108-114 | each name is the original with its `'` deleted and the other characters kept in order; standardised names hold no `'`, names without one are kept, and the number and order of columns are kept |
| LineParser.StandardizedIdempotent | src/ffe_parse.py:108-114 | standardising twice is standardising once |
| LineParser.SectionFrequency | src/ffe_parse.py:119-127 | the frequency the loop ends with: the value of the last frequency line whose value parses, 0.0 without one |
| LineParser.HeaderString | src/ffe_parse.py:120-129 | the header string the loop ends with: the last header line with `#` removed and stripped, empty without one |
| LineParser.DataLines | src/ffe_parse.py:121-131 | the data lines in block order: non-blank lines whose stripped form starts with neither `#` nor `*` |
| LineParser.Dequote | src/ffe_parse.py:138 | `read_csv`'s reading of a header field: one pair of enclosing `"` removed |
| LineParser.HeaderColumns | src/ffe_parse.py:137-138 | the column names `read_csv` takes from the header string: its whitespace-separated fields, dequoted |
| LineParser.Cells | src/ffe_parse.py:137-138 | the whitespace-separated cells of each data line, as text |
| LineParser.LineKindsDisjoint | src/ffe_parse.py:124-131 | the `if`/`elif` chain is exclusive: a frequency line is never a header line, and a data line never starts with `#` |
| LineParser.FrequencyDefault | src/ffe_parse.py:119-127 | with no frequency line whose value parses, the frequency stays 0.0 |
| LineParser.LastFrequencyWins | src/ffe_parse.py:124-127 | otherwise the value of the last frequency line that parses wins; one that raises is skipped |
| LineParser.HeaderDefault | src/ffe_parse.py:120 | with no header line the header string stays empty |
| LineParser.LastHeaderWins | src/ffe_parse.py:128-129 | otherwise the last header line gives the header string, never empty since it holds `Theta` |
| LineParser.DataLinesAppend | src/ffe_parse.py:130-131 | each data line is kept once, in block order |
| LineParser.SortLine | src/ffe_parse.py:123-131 | what one more line does to the frequency, the header string and the data lines |
| LineParser.SortLines | src/ffe_parse.py:123-131 | the loop of `_parse_section` ends with the last parsed frequency, the last header string and the data lines in order |
| LineParser.SectionFails | src/ffe_parse.py:133-134 | in the model, a block fails exactly when it has no header line or no data line, the `ValueError` of line 134 |
| LineParser.ParseSection | src/ffe_parse.py:116-143 | `_parse_section` gives `DecodeSection`: the error, or the standardised columns, the data rows and the frequency |
| LineParser.MarkersFromSpec | src/ffe_parse.py:152 | the split points are ascending and are exactly the lines holding `Configuration Name:` |
| LineParser.SectionStartsValid | src/ffe_parse.py:152-156 | after the fallback the split points are ascending line indices of the file |
| LineParser.SplitWithoutMarker | src/ffe_parse.py:153-156 | without a marker line a non-empty file is one block and an empty file none |
| LineParser.SplitAtMarkers | src/ffe_parse.py:159-161 | with marker lines each block begins with a marker line and holds no other |
| LineParser.SlicesCover | src/ffe_parse.py:159-161 | consecutive blocks put back together give the file from the first split point on |
| LineParser.SplitSectionsCover | src/ffe_parse.py:152-161 | the blocks cover the file from the first marker line on, or the whole file when there is none |
| LineParser.OutcomeOfSlice | src/ffe_parse.py:160-165 | block `i` runs from its split point to the next, or to the end of the file |
| LineParser.SuccessesSpec | src/ffe_parse.py:164-168 | the indices of the blocks that parse are ascending and are exactly those blocks |
| LineParser.KeptInOrder | src/ffe_parse.py:164-168 | the fields kept are those of the blocks that parse, in block order; a block raising `ValueError` is skipped |
| LineParser.ParseBlocks | src/ffe_parse.py:158-170 | the loop over the split points keeps the fields of the blocks that parse |
| LineParser.ParseFile | src/ffe_parse.py:145-170 | `_parse` gives the fields of the blocks of the file that parse, in order |
| LineParser.LastWins | src/ffe_parse.py:181 | `{f.freq: f for f in fields}`: a later field replaces an earlier one with the same frequency |
| LineParser.Merge | src/ffe_parse.py:181-182 | the dictionary's fields in ascending key order |
| LineParser.LastWinsKeys | src/ffe_parse.py:181 | the dictionary's keys are exactly the frequencies present |
| LineParser.LastWinsLast | src/ffe_parse.py:181 | the dictionary maps each frequency to the last field carrying it |
| LineParser.MergeAscending | src/ffe_parse.py:182 | merged frequencies are strictly ascending |
| LineParser.MergeKeys | src/ffe_parse.py:181-182 | the merged fields follow the sorted keys one for one |
| LineParser.MergeFrequencies | src/ffe_parse.py:181-182 | the merged frequencies are exactly the input frequencies: none lost, none invented |
| LineParser.MergeLastWins | src/ffe_parse.py:181-182 | each merged field is the last input field with its frequency |
| LineParser.CollectFields | src/ffe_parse.py:175-177 | the loop extends the list with every file's fields, file after file |
| LineParser.ParseFiles | src/ffe_parse.py:172-184 | `parse` is the merge of all files' fields |
| GridAssembler.StrippedHeadersUnquoted | src/ffe/utils/ffe2xr.py:10 | stripped names keep their count; each is the original name with exactly its leading and trailing runs of `"` removed; a name without `"` is kept |
| GridAssembler.ScannedHeadersKept | src/ffe/utils/ffe2xr.py:10 | the names the native tokenizer produces hold no `"`, so the converter's strip changes none |
| GridAssembler.ViewShape | cpp/parser.cpp:199-218 | a two-dimensional view has at least one row and fits inside the numbers |
| GridAssembler.ScannedSectionView | cpp/parser.cpp:199-218 | for a scanned section the view is empty exactly when `row_count` is 0; otherwise it has at least one column per name, and exactly one when the leftover numbers are fewer than the rows |
| GridAssembler.SectionRowsReadInOrder | cpp/parser.cpp:204-218 | row `s` of the view is the numbers `s * cols` to `s * cols + cols - 1`, read in order |
| GridAssembler.FFEToXarray.constructor | src/ffe/utils/ffe2xr.py:5-19 | `__init__` keeps the file and sets the stripped names, section count, first section's row count and name count |
| GridAssembler.FFEToXarray.Create | src/ffe/utils/ffe2xr.py:13-14 | `__init__` raises exactly when the file has no sections; otherwise the converter is initialised from the file |
| GridAssembler.IndexOf | src/ffe/utils/ffe2xr.py:29-30 | `list.index`: the first position of the name, and an error exactly when it is absent |
| GridAssembler.CoordinateIndices | src/ffe/utils/ffe2xr.py:28-35 | the first exact `Theta` and `Phi` when both exist; otherwise both are looked up among the lower-cased names, and it fails exactly when one is still missing |
| GridAssembler.Column | src/ffe/utils/ffe2xr.py:38-39 | a column has one value per row |
| GridAssembler.Unique | src/ffe/utils/ffe2xr.py:42-43 | `np.unique`: strictly ascending, and holding exactly the values of the column |
| GridAssembler.FFEToXarray.SpatialCoords | src/ffe/utils/ffe2xr.py:21-53 | missing names raise `ValueError`; a one-dimensional or too narrow sample raises `IndexError`; no grid exactly when the axis lengths' product differs from the row count; a grid has ascending axes holding exactly each column's values; its columns are the ones `CoordinateIndices` finds and its axes are `Unique` of those columns |
| GridAssembler.Stack | src/ffe/utils/ffe2xr.py:63 | `np.stack` of equally shaped sections has shape (sections, rows, columns) |
| GridAssembler.SectionFrequencies | src/ffe/utils/ffe2xr.py:57 | one frequency per section, in section order |
| GridAssembler.FFEToXarray.ConvertedErrors | src/ffe/utils/ffe2xr.py:55-117 | `convert` fails on unequal shapes exactly when `np.stack` would, and on missing coordinates exactly when the lookup raises; an index error means an empty or too narrow first section; a reshape error means rows not one number per name; `xr.Dataset` fails on a name clash only when a column other than the coordinate columns is named `Frequency`, `Theta` or `Phi`, and such a column always makes `convert` fail |
| GridAssembler.FFEToXarray.Prepared | src/ffe/utils/ffe2xr.py:57-109 | the steps of `convert` that do not depend on the retry succeed only with a grid and a stacked array of shape (frequency, point, column) that the regrid accepts |
| GridAssembler.FFEToXarray.PreparedSuccess | src/ffe/utils/ffe2xr.py:57-109 | a successful preparation passed the stack, lookup, grid and reshape checks, found its grid in the first section's rows, and found no variable named like a coordinate |
| GridAssembler.FFEToXarray.ConvertedDataset | src/ffe/utils/ffe2xr.py:55-119 | a dataset has the frequencies in section order, strictly ascending axes spanning one grid point per row, and values of shape (frequency, Theta, Phi, column) |
| GridAssembler.FFEToXarray.ConvertedGrid | src/ffe/utils/ffe2xr.py:63-106 | the axes are exactly the distinct values of the first section's Theta and Phi columns; the variables satisfy the dictionary invariant; the values are the stacked sections under the corrected regrid `Regrid` |
| GridAssembler.FFEToXarray.ConvertedAsWritten | src/ffe/utils/ffe2xr.py:55-119 | `convert` as written, with the retry of line 90 repeating the reshape of line 80 |
| GridAssembler.FFEToXarray.ConvertedAsWrittenValues | src/ffe/utils/ffe2xr.py:80-91 | as written, `convert` fails exactly as the corrected one does and otherwise differs only in its values, which are the line-80 Fortran-order reshape of the stacked sections whatever the check finds |
| GridAssembler.FFEToXarray.Convert | src/ffe/utils/ffe2xr.py:55-119 | the steps of `convert` give `Converted()`, with the corrected retry |
| GridAssembler.FFEToXarray.CollectDataVars | src/ffe/utils/ffe2xr.py:94-106 | the loop over the names builds `DataVars(headers, t, p)` |
| GridAssembler.Assign | src/ffe/utils/ffe2xr.py:106 | `data_vars[name] = ...`: an existing name is rebound in place, a new one is added at the end |
| GridAssembler.ClashIsSharedName | src/ffe/utils/ffe2xr.py:97-117 | the variables share a name with a coordinate of the dataset exactly when a column other than the coordinate columns is named `Frequency`, `Theta` or `Phi` |
| GridAssembler.DataVarsSpec | src/ffe/utils/ffe2xr.py:94-106 | every column but Theta and Phi becomes a variable under its name; names are distinct; a repeated name is bound to its last column |
| GridAssembler.AssignKeepsInvariant | src/ffe/utils/ffe2xr.py:104-106 | `data_vars[name] = ...` keeps the dictionary invariant when one more column is visited |
| GridAssembler.SkipKeepsInvariant | src/ffe/utils/ffe2xr.py:99-100 | skipping a coordinate column keeps the dictionary invariant |
| GridAssembler.DataVarsInHeaderOrder | src/ffe/utils/ffe2xr.py:97-106 | with distinct names the variables follow the header order, each under its own column's name |
| FortranOrder.UnflattenPos3 | src/ffe/utils/ffe2xr.py:80 | reading a Fortran-order position back gives the index it came from |
| FortranOrder.ReshapeF | src/ffe/utils/ffe2xr.py:80 | `reshape(..., order='F')` has the target shape |
| FortranOrder.ReshapeFThetaFastest | src/ffe/utils/ffe2xr.py:80 | `order='F'` puts spatial point `t + nT * p` at `[t][p]`: Theta varies fastest |
| FortranOrder.SwapAxes12 | src/ffe/utils/ffe2xr.py:91 | `swapaxes(1, 2)` exchanges the two middle indices |
| GridAssembler.AllClose | src/ffe/utils/ffe2xr.py:87 | `np.allclose` with relative tolerance 1e-5 and absolute tolerance 1e-8, for arrays of one length |
| GridAssembler.ThetaAxisMatches | src/ffe/utils/ffe2xr.py:86-87 | the check: the Theta column along the first Phi of the first frequency is `allclose` to the Theta axis |
| GridAssembler.RegridAsWritten | src/ffe/utils/ffe2xr.py:80-91 | lines 80-91 as written, with shape (frequency, Theta, Phi, column); the retry repeats the reshape of line 80 |
| GridAssembler.RetryIsNoOp | src/ffe/utils/ffe2xr.py:86-91 | as written, the result is the line 80 reshape whatever the check finds |
| GridAssembler.AsWrittenMislabelsPhiFastest | src/ffe/utils/ffe2xr.py:80-91 | as written, a Phi-fastest scan with two or more of each axis puts the point (`thetas[0]`, `phis[1]`) in the cell labelled (`thetas[1]`, `phis[0]`) |
| GridAssembler.TwoByTwoIsPhiFastest | src/ffe/utils/ffe2xr.py:75-77 | the points (0, 0), (0, 90), (90, 0), (90, 90) are a Phi-fastest scan and not a Theta-fastest one |
| GridAssembler.CheckedColumn | src/ffe/utils/ffe2xr.py:86 | the check reads the Theta column of the first `nT` points of the first frequency |
| GridAssembler.CheckPassesThetaFastest | src/ffe/utils/ffe2xr.py:86-87 | a Theta-fastest scan passes the check |
| GridAssembler.CheckFailsPhiFastest | src/ffe/utils/ffe2xr.py:86-88 | a Phi-fastest scan over two or more of each axis fails the check when the first two Theta values are farther apart than `allclose` tolerates |
| GridAssembler.Regrid | src/ffe/utils/ffe2xr.py:80-91 | the corrected regrid has shape (frequency, Theta, Phi, column) |
| GridAssembler.RegridThetaFastest | src/ffe/utils/ffe2xr.py:80-87 | a Theta-fastest scan keeps the `order='F'` reading |
| GridAssembler.SwappedReshapePhiFastest | src/ffe/utils/ffe2xr.py:91 | reshaping to (Freq, Phi, Theta, Cols) and swapping puts point `t * nP + p` at `[t][p]` |
| GridAssembler.OrdersAgree | src/ffe/utils/ffe2xr.py:75-77 | with one Theta or one Phi the two scan orders coincide |
| GridAssembler.RegridPhiFastest | src/ffe/utils/ffe2xr.py:87-91 | the corrected retry reads a Phi-fastest scan with Phi varying fastest when the first two Theta values are farther apart than `allclose` tolerates |
| GridAssembler.RegridMatchesAxes | src/ffe/utils/ffe2xr.py:82-91 | after the corrected regrid, cell `[0][t][p]` holds Theta `thetas[t]` and Phi `phis[p]` for either scan order |

## Left out

- File reading (`read_file_to_string`, `open(...).readlines()`), the pybind module
  object and `parse_ffe`: the model starts from the file's text or its lines.
- The rounding of decimal numerals to binary doubles, hexadecimal numerals, `inf`,
  `nan` and underscores in `float()`: numbers are exact reals read from decimal
  numerals.
- Numbers.ParseFloat: it is the decimal reading above; inputs Python accepts beyond it
  (`"inf"`, `"1_0"`) are treated as failures.
- LineParser.ParseSection: `pd.read_csv` is modelled by its column names (whitespace
  split, one pair of enclosing `"` removed) and each data row's cells as text.
  Converting cells to numbers, pandas' quote handling inside rows and its handling of
  ragged rows are not modelled. Fields are split as Python's `str.split()` splits them,
  at every character `str.isspace` accepts; pandas splits at blanks (space and tab)
  only, and keeps a quoted header field holding a space (`"Re Etheta"`) as one name
  where the model makes two.
- LineParser.SectionFails: `pd.read_csv` also raises `ParserError`, a subclass of
  `ValueError`, on a ragged block, for example a later data row with more fields than
  the header has names. `_parse` skips such a block, while the model decodes it and
  `KeptInOrder` and `ParseFile` keep it. When pandas raises depends on its implicit
  index rule (a first data row one field longer than the header), which is outside
  these files.
- LineParser.HeaderColumns: `read_csv` renames a repeated header name (`X`, `X.1`,
  `X.2`, ...); the model keeps the repeats as they are. Its renaming rule depends on the
  pandas version and on the names already present, so it is left out.
- `SingleFrequencyField`, `FFData` and its views (`electric_field`, `to_cartesian`,
  `__getitem__`) are not part of this model. The merge returns the sorted fields
  `FFData` would receive.
- The `lru_cache` on `parse` is a cache with no effect on the result, so it is left out.
- The xarray `Dataset` is modelled by its coordinates, its variable names and columns,
  and the shared four-dimensional array. Its `attrs` and the printed warning before
  `None` is returned are left out.
- NaN values: `np.unique`, `np.allclose` and dictionary keys are modelled on reals,
  where NaN does not exist.
- Text.AsciiLower: `str.lower()` is modelled on the letters A to Z only.
- NativeScanner.SectionRowCount: with no header names `row_count` is left uninitialised
  in the C++ struct. The model stores 0, which the binding reads as an empty view.
- GridAssembler.FFEToXarray.ConvertedErrors: the `IndexError` and reshape cases are
  stated in one direction only. The `NotImplementedError` of an irregular grid is
  characterised only through `SpatialCoords`.
- GridAssembler.RegridMatchesAxes: it needs the first two Theta values to be farther
  apart than `allclose` tolerates. With closer values a Phi-fastest scan passes the
  check and keeps the Theta-fastest reading.
- GridAssembler.FFEToXarray.Convert: it follows the corrected retry (`Regrid`); the
  code as written is `ConvertedAsWritten` (see Findings).
- GridAssembler.FFEToXarray.ConvertedGrid: its values are those of the corrected retry.
  On a Phi-fastest scan the code as written returns the line-80 reshape instead, as
  `ConvertedAsWrittenValues` states.

## Findings

| source | as written | input that shows it | evidently intended | confidence | as-written member | corrected member |
|---|---|---|---|---|---|---|
| src/ffe/utils/ffe2xr.py:86-91 | when the Theta column does not match the Theta axis, the retry repeats the `order='F'` reshape of line 80, so nothing changes | one frequency with columns Theta, Phi, value and points (0, 0), (0, 90), (90, 0), (90, 90) in that order (Phi innermost): the cell labelled Theta = 90, Phi = 0 holds Theta = 0, Phi = 90 | reshape to (Freq, Phi, Theta, Cols) and swap the two spatial axes, as the comment on line 91 says | not executed | GridAssembler.AsWrittenMislabelsPhiFastest | GridAssembler.RegridMatchesAxes |
