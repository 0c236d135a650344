# edscripts: a verified model of the file-manipulation core

`FileManip.py` and its near-copy `StatsFns.py` are small Python 3 helpers
for education data in CSV and text files. This project models their core
in Dafny and proves properties of the model:

- **`extract_fields`** is a quote-aware line tokenizer (module `Tokenizer`,
  `tokenizer.dfy`).
- **`get_headers` and the header part of `get_csv_columns`** work out the
  column names (module `Headers`, `headers.dfy`). Names are gathered from a
  header file or from the first input row. Each name is stripped, and the
  first empty name is dropped.
- **The rest of `get_csv_columns`** builds the table: a dictionary from each
  header name to the list of that column's values (module `Columns`,
  `columns.dfy`).
- **`extract_sequential`** filters the table in place (module `Sequential`,
  `sequential.dfy`). At every change of ID in the group column, the run of
  the previous ID is deleted from every column when its sequence value is
  not constant.
- **`extract_chunk`** copies the lines with index in `[begin, end]` into a
  numbered series of output files (module `Chunks`, `chunks.dfy`). A new
  file is started when the leading field changes and `count` has reached
  `period`. A line's leading field is `Lead(line)`, which is `None` when
  the tokenizer gives the line no field.

Module `Seqs` (`seqs.dfy`) holds the shared pieces: `Option`, `Result`,
Python's `list.index`, `list.pop(k)` and list concatenation.

The loops of the source are methods with loop invariants. Each is proved
equal to a specification function:

| method | specification function |
|---|---|
| `ExtractFields` | `Fields`, a left-to-right scan |
| `CleanHeaders` | `Cleaned` |
| `BuildColumns` | `Build` |
| `ExtractChunk` | `Chunks` |

The lemmas state what those functions mean.

The filter changes its dictionary in place, so it is a class `Table`:

- the dictionary is a `map` field;
- `PopRow`, `RemoveRows` and `ExtractSequential` modify it;
- a ghost `height` keeps the columns at equal length.

When each ID occupies one contiguous run of the group column, the filter's
result equals `Filtered`. `Filtered` keeps exactly the rows that satisfy
the rule `Keep`: the row belongs to the last run, or every row with its ID
has the same sequence value.

The two copies of each function are the same code, with one exception:
`StatsFns.py`'s `extract_chunk` has no `period != None` guard. The model
takes `period` as an `Option<int>`, and the `StatsFns.py` variant is its
`Some` case.

Python's exceptions become error results:

- `data[0]` on an empty field list in `extract_chunk` is `ChunkError.NoFields`;
- `values[i]` out of range in `get_csv_columns` is `BuildError.FieldOutOfRange`;
- the `print`-and-`sys.exit(1)` branches of `extract_sequential` are
  `FilterError.MissingColumn`.

## Model

| member | source | states |
|---|---|---|
| Tokenizer.ExtractFields | FileManip.py:6-40 | The character loop returns exactly `Fields(line)`: the scan's emitted fields, plus the last accumulated field when it is not empty (same code as StatsFns.py:5-31). |
| Tokenizer.NoLoss | FileManip.py:21-38 | Concatenating the fields gives back the line, in order, without the quote characters that open or close a quoted stretch and without the commas outside quotes. |
| Tokenizer.QuoteFreeFields | FileManip.py:31-38 | On a line without quote characters the fields are the comma-separated pieces (Python's `split(",")`). An empty last piece is dropped, so the empty line gives no field. |
| Tokenizer.QuotedLiteral | FileManip.py:22-29 | A line made of one quoted stretch gives its text as its only field (none when the stretch is empty). Commas and the other quote character inside it are kept; the enclosing quotes are not. |
| Tokenizer.QuotedCommaExample | FileManip.py:22-35 | `a,"b,c",d` gives `a`, `b,c`, `d`. |
| Tokenizer.TrailingCommaExample | FileManip.py:37-38 | `a,b,` gives `a`, `b`, with no empty last field. |
| Tokenizer.UnquotedCommaSplits | FileManip.py:9-12 | An unquoted comma splits a value in two, as the docstring warns. |
| Tokenizer.UnquotedCommaExample | FileManip.py:9-12 | `Washington, D.C.` gives `Washington` and ` D.C.`. |
| Tokenizer.EmptyLineExample | FileManip.py:37-40 | The empty line gives the empty list. |
| Headers.TrimStartSuffix | FileManip.py:132 | Trimming the front leaves a suffix of the name that does not start with whitespace; everything removed is whitespace. |
| Headers.TrimEndPrefix | FileManip.py:132 | Trimming the back leaves a prefix that does not end with whitespace; everything removed is whitespace. |
| Headers.StripMiddle | FileManip.py:131-132 | `strip()` gives a middle slice of the name that neither starts nor ends with whitespace, and everything around that slice is whitespace. |
| Headers.StripIdempotent | FileManip.py:131-132 | Stripping a stripped name changes nothing. |
| Headers.StripExamples | FileManip.py:129-132 | `id`, ` name` and `score\n` strip to `id`, `name` and `score`. |
| Headers.GatherHeaders | FileManip.py:113-127 | Gathers the raw names and the data rows. The raw names are all rows of a `.csv` header file concatenated in order, or the tokenized lines of any other header file concatenated in order, or the first input row alone. The data rows are all input rows when a header file is used, and all but the first otherwise. |
| Headers.CleanHeaders | FileManip.py:131-134 | The cleanup loop's result is `Cleaned(raw)`: every name stripped in place, then the first empty name removed when one exists. |
| Headers.CleanedLength | FileManip.py:133-134 | Cleanup removes exactly one name when some stripped name is empty, and none otherwise. |
| Headers.CleanedMultiset | FileManip.py:133-134 | As a multiset, the result is the stripped names minus one empty name. Later empty names survive. |
| Headers.CleanedStripped | FileManip.py:131-134 | Every name that survives cleanup is already stripped. |
| Headers.GetHeaders | FileManip.py:93-136 | Returns the cleaned gathered names and the input rows that follow the header (StatsFns.py:83-104 does the same inside `get_csv_columns`). |
| Headers.TwoLineHeaderExample | FileManip.py:115-118 | Header rows spread over two lines of a header file are joined in order, then cleaned. |
| Columns.InitColumns | FileManip.py:178-180 | The keys of the new dictionary are exactly the header names, each with an empty list. |
| Columns.AppendRow | FileManip.py:187-189 | One data row appends, to the list of every header name, the row's fields at that name's positions. It fails exactly when the row has fewer fields than there are headers. |
| Columns.BuildColumns | FileManip.py:178-189 | The table loop returns `Build(headers, rows)`: the table of columns, or the index error of the first row that is too short. |
| Columns.GetCsvColumns | FileManip.py:140-194 | Returns the cleaned names and the table built from the data rows that follow them, or the build error (same code as StatsFns.py:76-122). |
| Columns.BuildFails | FileManip.py:186-189 | The build fails exactly when some data row has fewer fields than there are headers, and then it names a row that is too short. |
| Columns.BuildKeys | FileManip.py:178-180 | The keys of a built table are exactly the header names. |
| Columns.ColumnOfDistinct | FileManip.py:186-189 | With distinct names, the list of `headers[i]` has one entry per data row, and entry `r` is field `i` of row `r`. |
| Columns.BuildDistinct | FileManip.py:186-189 | With distinct names and wide enough rows, the build succeeds, and every list is column `i` of the rows. |
| Columns.BuildExample | FileManip.py:178-189 | Headers `id`, `score` with rows `1,10` and `2,20` give `id` mapped to `1,2` and `score` mapped to `10,20`. |
| Columns.ShortRowExample | FileManip.py:189 | A one-field row under two headers is an index error at row 0. |
| Sequential.FindChange | FileManip.py:248-256 | The inner `for j` loop reports a change exactly when the run's sequence value is not constant, compared with its last row. |
| Sequential.Table.PopRow | FileManip.py:251-252 | Row `k` leaves every column; the keys stay, and the height drops by one. |
| Sequential.Table.RemoveRows | FileManip.py:250-253 | Rows `start` to `end - 1` leave every column, and `removed` counts them. |
| Sequential.Table.Advance | FileManip.py:239-258 | One pass of the cursor loop at row `i`. Rows are removed exactly when the ID changes at `i` and the run of the previous ID, from its first occurrence `start` up to `i`, is not constant. A pass that removes nothing leaves the table unchanged and moves the cursor to `i + 1`. A pass that removes rows leaves every column as its rows before `start` followed by its rows from `i` on, removes `i - start` rows and resumes at `start + 1`. The table stays rectangular. For contiguous IDs the pass also advances the scan invariant `Progress`, which relates the table to the original one and the mask. |
| Sequential.Table.ExtractSequential | FileManip.py:224-258 | A missing group or sequence column gives `MissingColumn`, with the table unchanged. Otherwise the result is the number of rows removed. For contiguous IDs the new table is `Filtered` of the old one, and the count is the number of rows that fail `Keep` (same code as StatsFns.py:133-167). |
| Sequential.FinalRunSurvives | FileManip.py:238-258 | The rows of the final run always survive unchanged, because no change of ID follows them. |
| Sequential.FinalRunNotExamined | FileManip.py:244-256 | A final group whose sequence value changes is kept. |
| Sequential.FilteredKeepsAll | FileManip.py:233-258 | After filtering, every row satisfies the keep rule again. |
| Sequential.FilteredContiguous | FileManip.py:233-258 | Filtering keeps each ID in one contiguous run. |
| Sequential.FilteredIdempotent | FileManip.py:233-258 | The filtered table is still rectangular, and filtering it again changes nothing. |
| Sequential.ConstantRunsUnchanged | FileManip.py:244-256 | When every row already satisfies the keep rule, the filter changes nothing. |
| Sequential.WorkedExample | FileManip.py:199-213 | IDs `A,A,A,B,B` with values `x,x,y,p,p` lose the three rows of `A`. |
| Chunks.WriteWindowLine | FileManip.py:73-82 | A window line fails exactly when it has no field. Otherwise it opens a new chunk when the split rule holds, is appended to the open chunk, and sets `last` to its leading field. |
| Chunks.ReadLine | FileManip.py:72-86 | One loop iteration matches one step of `FeedTo`: the index error, the `break` past `end`, or the next state. |
| Chunks.TailIgnored | FileManip.py:83-84 | Lines after the first line past `end` change nothing. |
| Chunks.ExtractChunk | FileManip.py:45-89 | The line loop returns `Chunks(lines, begin, end, period)` (the `Some` case is StatsFns.py:36-72). |
| Chunks.ChunksWindow | FileManip.py:73-81 | Concatenated in order, the chunks are exactly the lines with index in `[begin, end]`, clipped to the input. |
| Chunks.ChunksError | FileManip.py:74-75 | The index error happens exactly when some window line has no field, and it names the first such line. |
| Chunks.ChunksSplitRule | FileManip.py:75-82 | The split rule holds in both directions. Every chunk boundary lies where the leading field changes and `count` has reached `period`. Where the leading field changes (or at the first written line) and no boundary lies, `count` was below `period`. `count` includes the lines before `begin` for the first chunk. Only the first chunk can be empty. |
| Chunks.ChunksSingle | FileManip.py:75 | Without a period, all lines go to one file. |
| Chunks.EmptyFirstChunkExample | FileManip.py:69-86 | Lines `a,a,b` with window `[1, 2]` and period 1 give an empty file 000, then `a` and `b` in files 001 and 002. |

## Left out

- `corr` and `corr3` in `StatsFns.py`: floating-point statistics, which are not part of the core.
- `teachers.py` and `salary.py` are not part of this model.
- File and CSV I/O become values. Input files are sequences of lines or rows, and output files are the returned chunks or the table. Opening and closing files, and the `csv` module's own quoting rules, are not modelled.
- Output file naming (`os.path.splitext` and the `{0}{1:0=3}{2}` format) and the row writing after the filter are not modelled. They are formatting and I/O.
- `print` and `sys.exit(1)` in `extract_sequential` are modelled as an error result. The printed "Total lines removed" message is not modelled.
- `get_csv_columns` in `FileManip.py` calls `os.path.splitext(headfilename)` even when `headfilename` is `None`, which raises an exception; `StatsFns.py:79` makes the same unguarded call. The model's header source is a datatype, so this crash is not modelled.
- The choice of header reader by the `.csv` extension is a datatype choice (`CsvHeaderFile` or `TextHeaderFile`). Extensions are not parsed.
- `str.strip()` is modelled on the ASCII whitespace characters only. Unicode whitespace is not modelled.
- `Sequential.Table.ExtractSequential`: when an ID occurs in several separate runs, the contract states only the count, the unchanged keys and the equal column lengths, not which rows remain. The filter then looks back to the ID's first occurrence, and its result is not characterised.
- `Sequential.Table`: duplicate header names, where one column would receive two fields per row, are left to `Columns`. The filter takes a rectangular table.
- The docstring of `extract_sequential` promises that every student whose value changes is removed. The final run is never examined, so `FinalRunSurvives` and `FinalRunNotExamined` state what the code does.
- Integers are unbounded, as in Python. `begin`, `end` and `period` are integers; non-integer arguments are not modelled.
