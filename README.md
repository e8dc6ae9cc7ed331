# Data loader of the vita-sicura-tool insurance dashboard

This project models `src/data.py`, the dashboard's data layer, in Dafny.
The registry `REQUIRED` maps each CSV file name to the columns that file must have.
For every registered file, in registry order, `load_all`:

1. resolves the file under the data directory and fails with `FileNotFoundError` when it is absent;
2. reads it as UTF-8 and, only on a decoding error, again as Latin-1 (`_read_csv_safely`);
3. coerces the customer identifier `codice_cliente`, when present, to nullable integers, with text that is not a number becoming missing;
4. checks the required columns (`_validate`) and fails with a `ValueError` naming the file and the missing columns;
5. stores the table under its file name.

The first failure ends the loop. `get_df(name)` looks a name up in the result of `load_all`.

The project has five modules:

- `Wrappers` (`wrappers.dfy`): `Option`, `Result` and `Outcome`.
- `Tables` (`tables.dfy`): the part of a pandas DataFrame the loader uses. These are named columns of cells, column lookup and assignment, and the per-cell coercion. Parsing text as a number is a parameter, `numeric`.
- `Schema` (`schema.dfy`): the registry as an ordered list of entries, with `keys()` and `get`.
- `Files` (`files.dfy`): the data directory.
  - The stored files are a map from path to what `read_csv` makes of the file under each encoding.
  - The class `FileSystem` logs every existence probe and every read, so the order of work can be stated.
- `Data` (`data.dfy`): the loader.
  - Specification functions give the outcome and the access log: `SafeRead`, `NormalizeCustomerId`, `LoadFile`, `Steps`, `Collect`, `Load` and `Lookup`.
  - The lemmas prove the properties.
  - The methods `ReadCsvSafely`, `LoadOne`, `LoadAll` and `GetDf` follow the source's control flow: the `for` loop of `load_all`, its early exits and the fallback read. Each is proved to return exactly what the specification gives and to make exactly its accesses.

## Behaviour worth noting

- `get_df(name)` runs `load_all()`, which loads every registered file. A failure in any registered file makes `get_df` fail for every name, including names whose own file is fine.
- `load_all` probes each path for existence before reading it. A file that does not decode as UTF-8 is read a second time, as Latin-1.
- A decoding error of the Latin-1 retry is not caught. It propagates like any other read error.

## Model

| member | source | states |
|---|---|---|
| Data.Missing | src/data.py:20 | The reported columns are the required ones the header lacks, and nothing else. They keep registry order (a subsequence of the required list). |
| Data.MissingCounts | src/data.py:20 | Each absent required column is reported as many times as the registry lists it, and a present one never. |
| Data.Validate | src/data.py:18-22 | Passes exactly when every column registered for the file is in the header. Otherwise fails with `MissingColumns` naming the file and a non-empty list of the missing columns. |
| Data.UnregisteredFilePasses | src/data.py:19 | A file name outside the registry gets the default empty requirement and always passes. |
| Data.ListRepr | src/data.py:22 | The list in the message is bracketed, and every name of the list appears in it between single quotes. |
| Data.MissingColumnsMessage | src/data.py:22 | The validation message starts with the file name between `[` and `]`, ends with the list of missing columns, and names each missing column between single quotes. |
| Data.FileNotFoundMessage | src/data.py:30 | The file-not-found message ends with the resolved path. |
| Data.FallbackOnlyOnDecodeError | src/data.py:11-16 | The file is read as UTF-8 first and no other path is touched. There is a second read, as Latin-1, exactly when the first read raised a decoding error, and its outcome is then the answer. Any other outcome of the first read is the answer unchanged. |
| Data.ReadCsvSafely | src/data.py:11-16 | The try/except returns what `SafeRead` gives and makes exactly its reads, in order. |
| Data.NormalizeCustomerIdSpec | src/data.py:34-35 | About the coercion `NormalizeCustomerId`: it keeps the header and every other column. Every value of `codice_cliente` becomes an integer or missing. Integers and missing values are unchanged. Text that parses to a number becomes that number, and text becomes missing exactly when it does not parse. A table without the column is unchanged. |
| Data.NormalizeIdempotent | src/data.py:34-35 | Coercing an already coerced table changes nothing. |
| Data.NormalizeKeepsValidation | src/data.py:34-37 | Coercing before validation never changes the verdict. |
| Data.LoadFileOutcome | src/data.py:28-38 | One iteration probes its path first and touches no other path. For an existing file, the probe is followed by exactly the reads of `_read_csv_safely`. An absent file fails with `FileNotFound` on that path, is not read, and is the only source of that error. A read error is passed on unchanged. A parsed file lacking required columns fails with `MissingColumns` naming the file and the columns its parsed header lacks. Otherwise the file loads, and the table kept is the coerced one, which has the required columns. |
| Data.LoadOne | src/data.py:28-38 | The loop body returns the outcome of `LoadFile` and makes exactly its accesses. |
| Data.CollectFailure | src/data.py:27-38 | Once a file fails, the loop ends with that file's error. The accesses are those of the earlier files followed by those of the failing one. |
| Data.CollectSucceeds | src/data.py:26-40 | If every file loads, the loop returns the datasets after the accesses of every file in order. |
| Data.CollectKeys | src/data.py:38 | The returned dictionary has exactly the registry's file names as keys. |
| Data.CollectValues | src/data.py:38 | Each key holds the table loaded for it. Earlier entries for other keys are kept. |
| Data.LoadSucceedsExactly | src/data.py:25-40 | `load_all` succeeds exactly when every registered file loads. It then maps each registered name, and no other, to that file's coerced table, which has every required column. |
| Data.LoadStopsAtFirstFailure | src/data.py:26-40 | `load_all` fails exactly when some file fails. Every file before the first failure loaded, and the result is that file's error. The accesses are those of the files up to and including it. On success the accesses are those of every file in order. |
| Data.NoLaterFileTouched | src/data.py:27-37 | After a failure, no later registered file is probed or read. |
| Data.MissingFileReported | src/data.py:29-30 | A `FileNotFound` result names the resolved path of the first failing file. That path does not exist, and it was probed but never read. |
| Data.MissingColumnsReported | src/data.py:31-37 | A `MissingColumns` result names the first failing file of the registry. That file was read successfully, and the list is exactly its required columns missing from the parsed header, non-empty. |
| Data.LoadAll | src/data.py:25-40 | The loop returns the datasets or the first error as `Load` gives them. The new access log is the old one followed by the accesses of `Load`. |
| Data.GetDfOutcome | src/data.py:42-43 | `get_df(name)` succeeds exactly when `load_all` succeeds and the name is registered. The table is then that file's validated, coerced table. A name outside the registry gives `KeyMissing`, and an error of `load_all` is passed on. |
| Data.GetDf | src/data.py:42-43 | Returns the lookup of `name` in the result of `LoadAll`, after exactly its accesses. |
| Schema.Get | src/data.py:19 | The lookup returns the columns of the first entry with that name, or the default when there is none. |
| Schema.GetFindsEntry | src/data.py:19 | In a registry without duplicate names, the lookup of each entry's name returns that entry's columns. |
| Tables.Assign | src/data.py:35 | Assigning a column keeps the header when the column exists and appends the name otherwise. The column then holds exactly the given cells, and every other column is unchanged. |
| Tables.ToNullableInt | src/data.py:35 | A coerced cell is an integer or missing. Integers and missing values are kept. Text that parses becomes the parsed number, and text becomes missing exactly when it does not parse. |
| Files.JoinInjective | src/data.py:28 | Distinct file names in the data directory resolve to distinct paths. |
| Files.ReadAs | src/data.py:14 | A read of an absent path raises `FileNotFoundError`, and every read error names the path read. |
| Files.FileSystem.Exists | src/data.py:29 | The existence check answers whether the path is stored and logs one probe. |
| Files.FileSystem.ReadCsv | src/data.py:14 | A read returns the stored outcome for that encoding and logs one read. |

## Left out

- The cache `st.cache_data` on `load_all` is not modelled. Every call to `get_df` re-runs the load, and a cached table's object identity is not captured.
- CSV parsing and text decoding are not modelled. Each stored file records what `read_csv` yields under UTF-8 and under Latin-1: a table, a decoding error or another error.
- Parsing text as a number (pandas' `to_numeric`) is the parameter `numeric`, which answers with an integer or nothing.
- Tables.ToNullableInt: floating-point cells are not modelled, and `numeric` answers with an unbounded integer. So the model does not capture three behaviours of the cast to `Int64`. It raises for a fractional number in `codice_cliente`. It raises for an integer outside the range -2^63 to 2^63-1. And when the column also holds text that is not a number, pandas first turns it into float64, which rounds integers above 2^53 before the cast.
- Data.ListRepr: Python's escaping inside column names is not modelled. This covers quotes, backslashes and control characters such as a newline, which `repr` shows as `\n`. So "every name appears between single quotes" holds only for names without such characters.
- Path resolution is simplified. `DATA_DIR` is a parameter, and joining a name is concatenation with `/`, so absolute or `..` names are not resolved.
- The contents of the registry are not modelled. `src/schema.py` is not part of this model, so the registry is a parameter.
- `src/llm.py`, the Streamlit pages and the KPI computations are not part of this model.
- `pandas`' `low_memory` option affects only how the file is parsed and is not modelled.
