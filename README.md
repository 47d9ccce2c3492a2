# fireflower targets, modelled in Dafny

fireflower supplies luigi "targets", which are I/O endpoints for workflow tasks. Its logic lives in
`fireflower/targets.py`, and this project models that file's core:

- **FireflowerS3Target** is an S3 target. When `LOCAL_S3_PATH` is set, it resolves its `s3://`
  path to a local file. `open` validates the mode and then picks a handle kind from the mode and
  the `compressed` flag.
- **S3CSVTarget** holds CSV over such a target. It has optional gzip framing, configured keyword
  arguments for reads (`kwargs_in`) and writes (`kwargs_out`), and the static `write_values` row
  writer.
- **S3TypedCSVTarget** and the module-level `read_typed_csv` / `write_typed_csv` form the typed
  column codec. A `types` map gives each declared column an `output` transform, an `input`
  transform and a `serialization_dtype`. Undeclared columns pass through, and column order is kept.
- **DBTaskOutputTarget** stores task values in a table of `(task_id, task_family, params,
  value)` rows, looked up by task id. `write` always appends a row, so a task can have several;
  `upsert` updates the task's row when there is one and inserts one otherwise, so it never adds a
  second. It also offers touch, read, exists and remove, each in a transaction that rolls back on
  failure.

How library calls are modelled:

- Data frames are sequences of named columns (`Frames.Table`), and `**kwargs` are maps.
- A write returns a `CsvWrite` record. It holds the stream, the table handed to `to_csv` and the
  keyword arguments.
- A read takes a `parse` function. It stands for `pd.read_csv` and maps the dtype map it is given
  to the table pandas returns.
- The database table is a class whose field is the sequence of rows. The target's methods are
  proved against pure functions on that sequence.

Files:

- `wrappers.dfy` holds Option, Result and Outcome.
- `frames.dfy` holds values, columns, tables and kwargs.
- `local_paths.dfy` holds `str.replace` and `posixpath.join`.
- `s3_target.dfy` holds `FireflowerS3Target`.
- `csv_target.dfy` holds `S3CSVTarget`, the keyword merging and `write_values`.
- `typed_csv.dfy` holds the typed codec and `S3TypedCSVTarget`.
- `task_output.dfy` holds `DBTaskOutputTarget`.

Where the docstring of `FireflowerS3Target` (fireflower/targets.py:23-27) and its code differ, the
model follows the code. The docstring says the local path is found by stripping off `s3://`. The
code removes every `s3://` anywhere in the path in one left-to-right pass, and a remainder that
starts with `/` replaces the local root.

## Model

| member | source | states |
|---|---|---|
| `LocalPaths.StripScheme` | fireflower/targets.py:39 | `path.replace('s3://', '')`: the result is never longer, and it is shorter by a multiple of the scheme's length |
| `LocalPaths.NoSchemeIsFixpoint` | fireflower/targets.py:39 | a path with no `s3://` in it is left unchanged |
| `LocalPaths.SchemeShortens` | fireflower/targets.py:39 | a path that contains `s3://` anywhere gets strictly shorter |
| `LocalPaths.StripSchemeFixpointIff` | fireflower/targets.py:39 | the rewrite leaves a path unchanged exactly when the path holds no `s3://` |
| `LocalPaths.StripSchemeOfUri` | fireflower/targets.py:39 | `s3://rest`, where `rest` holds no further scheme, rewrites to `rest` |
| `LocalPaths.StripSchemeSinglePass` | fireflower/targets.py:39 | the removal is one pass and not idempotent: `s3:s3:////` rewrites to `s3://` |
| `LocalPaths.PosixJoin` | fireflower/targets.py:40 | `os.path.join` on POSIX: an absolute second part replaces the first; an empty first part gives the second; otherwise the result is the first part, then a `/` added exactly when the first part does not already end in one, then the second part |
| `S3Targets.FireflowerS3Target.constructor` | fireflower/targets.py:31-34 | the path and the `LOCAL_S3_PATH` setting are stored; `compressed` reads as false, as the `getattr` default gives |
| `S3Targets.FireflowerS3Target.WithCompression` | fireflower/targets.py:55 | a subclass's target carries its own `compressed` flag, which `open` reads |
| `S3Targets.FireflowerS3Target.LocalPath` | fireflower/targets.py:36-40 | needs a non-empty local root; the rewritten path itself when that is absolute; otherwise the root, then a `/` added exactly when the root does not end in one, then the rewritten path |
| `S3Targets.FireflowerS3Target.Exists` | fireflower/targets.py:42-46 | with a local root, whether the local file is a file; otherwise the remote answer |
| `S3Targets.FireflowerS3Target.Open` | fireflower/targets.py:48-69 | fails with `ValueError("Unsupported open mode '<mode>'")` exactly when the mode is not `r` or `w`; with no local root, delegates to the remote open; with one, returns a handle on the local file that is a writer exactly for `w` and text-wrapped exactly when not compressed |
| `S3Targets.OpenAddressesOneFile` | fireflower/targets.py:42-69 | opening for read and for write, and `exists`, all address the same place: the remote object, or the one local file |
| `S3Targets.ExampleUriStripped` | fireflower/targets.py:39 | `s3://bucket/key.csv` rewrites to `bucket/key.csv` |
| `S3Targets.ExampleJoin` | fireflower/targets.py:40 | `/tmp/root` joined with `bucket/key.csv` is `/tmp/root/bucket/key.csv` |
| `S3Targets.LocalPathExample` | fireflower/targets.py:36-40 | with root `/tmp/root`, `s3://bucket/key.csv` resolves to `/tmp/root/bucket/key.csv` |
| `CsvTargets.Merge` | fireflower/targets.py:172 | `toolz.merge`: union of the keys; the caller's value wins where a key is present in both; other configured values are kept |
| `CsvTargets.EffectiveKwargs` | fireflower/targets.py:171-172 | the keyword arguments after the truthiness-guarded merge equal a merge with the configuration, an unset or empty one counting as empty |
| `CsvTargets.CsvWriter.constructor` | fireflower/targets.py:164 | a fresh `csv.writer` on a stream has written nothing |
| `CsvTargets.CsvWriter.WriteRow` | fireflower/targets.py:154 | `writerow` appends exactly one row |
| `CsvTargets.WrittenRowsLayout` | fireflower/targets.py:149-154 | the rows written are the header, when truthy, followed by every value in order, and nothing else |
| `CsvTargets.WriteValues` | fireflower/targets.py:149-154 | the writer's rows grow by exactly the optional header followed by the values in order |
| `CsvTargets.S3CsvTarget.constructor` | fireflower/targets.py:138-147 | the path, local root, `compressed` flag and both keyword configurations are stored |
| `CsvTargets.S3CsvTarget.StreamFor` | fireflower/targets.py:173-175 | the stream is the handle `open` returns for the mode, gzip-framed exactly when the target is compressed |
| `CsvTargets.S3CsvTarget.WriteCsvTuples` | fireflower/targets.py:156-168 | a fresh writer on the write stream receives the optional header and then the tuples |
| `CsvTargets.S3CsvTarget.WriteCsv` | fireflower/targets.py:170-178 | the table is handed unchanged to `to_csv` on the target's write stream, gzip-framed exactly when compressed, with the caller's keywords merged over `kwargs_out` |
| `CsvTargets.S3CsvTarget.ReadCsv` | fireflower/targets.py:201-210 | the read is on the target's read stream, gzip-unframed exactly when compressed, with the caller's keywords merged over `kwargs_in`; it passes no dtype map and returns the parsed table |
| `CsvTargets.S3CsvTarget.ReadCsvStream` | fireflower/targets.py:180-190 | the merged keyword arguments, plus `chunksize` = 2 only when neither the caller nor the configuration gives one; every other key is kept |
| `CsvTargets.CsvRoundTrip` | fireflower/targets.py:170-210 | the write and the read use the same object and the same framing, and the read returns the written table when the parser gives back what was serialised |
| `TypedCsv.TransformColumns` | fireflower/targets.py:274-278 | the `from_items` comprehension keeps length, names and order; each named column is transformed and every other column is unchanged |
| `TypedCsv.Encode` | fireflower/targets.py:274-279 | `write_typed_csv` keeps the column names in order; a declared column becomes `types[c].output(col)`, and every other column is unchanged |
| `TypedCsv.Decode` | fireflower/targets.py:268-271 | `read_typed_csv` keeps the column names in order; a declared column becomes `types[c].input(col)`, and every other column is unchanged |
| `TypedCsv.DTypes` | fireflower/targets.py:263-264 | the dtype map has exactly the keys of `types`, each mapped to its `serialization_dtype` |
| `TypedCsv.DecodeEncode` | fireflower/targets.py:261-279 | if every descriptor's `input` undoes its `output`, then decoding the encoded table gives back the table |
| `TypedCsv.RoundTripLaw` | fireflower/targets.py:261-279 | decoding undoes encoding for every table exactly when every declared descriptor round-trips (both directions) |
| `TypedCsv.EncodeUndeclaredIdentity` | fireflower/targets.py:274-278 | a table with no declared column is written unchanged |
| `TypedCsv.ReadTypedCsv` | fireflower/targets.py:261-271 | fails with a `TypeError` exactly when the caller also passes `dtype`; otherwise decodes what the parser returns for the declared dtype map |
| `TypedCsv.ModuleRoundTrip` | fireflower/targets.py:261-279 | the module-level write then read returns the original table when descriptors round-trip and the parser returns what was serialised |
| `TypedCsv.S3TypedCsvTarget.constructor` | fireflower/targets.py:215-222 | the types, path, local root, `compressed` flag and keyword configurations are stored |
| `TypedCsv.S3TypedCsvTarget.WriteTypedCsvAsWritten` | fireflower/targets.py:224-238 | the source's write: compressed encodes and adds `compression='gzip'`, failing with `TypeError('compression')` exactly when the merged keywords already hold `compression`; uncompressed writes the table untransformed |
| `TypedCsv.S3TypedCsvTarget.WriteTypedCsv` | fireflower/targets.py:224-236 | the corrected write: both branches hand the encoded table to `to_csv`, with the same keyword handling as the source, failing with `TypeError('compression')` exactly when the compressed branch finds `compression` already in the merged keywords |
| `TypedCsv.S3TypedCsvTarget.ReadTypedCsv` | fireflower/targets.py:240-258 | fails exactly when the merged keywords repeat `dtype`, or repeat `filepath_or_buffer` on the compressed branch, and then with a `TypeError` naming one of those repeated keywords, always `dtype` on an uncompressed target; otherwise decodes what the parser returns for the declared dtype map |
| `TypedCsv.TypedTargetRoundTrip` | fireflower/targets.py:224-258 | with the corrected write: same object, same framing, and the original table back when descriptors round-trip |
| `TypedCsv.AsWrittenUncompressedRoundTripFails` | fireflower/targets.py:237-238 | on an uncompressed target, writing `a = [1]` with a round-tripping shift descriptor reads back `a = [0]` |
| `TaskOutputs.Matching` | fireflower/targets.py:99-101 | the query filter returns only rows whose task id matches, and never more rows than the table holds |
| `TaskOutputs.Others` | fireflower/targets.py:120-122 | what `delete()` leaves holds only rows of other tasks |
| `TaskOutputs.MatchingEmptyIff` | fireflower/targets.py:115-118 | the filter is empty exactly when no row has the task id |
| `TaskOutputs.MatchingAppend` | fireflower/targets.py:103-109 | an added row joins the filter of its own task id and no other |
| `TaskOutputs.MatchingSetValue` | fireflower/targets.py:134 | assigning a row's value changes, for no task id, how many rows match it; for other ids the matching rows are unchanged |
| `TaskOutputs.ReadRows` | fireflower/targets.py:111-113 | `.one().value` succeeds exactly when one row matches and returns its value; `NoResultFound` exactly when none does |
| `TaskOutputs.FirstIndex` | fireflower/targets.py:126 | the first position holding a row of the task |
| `TaskOutputs.UpsertRows` | fireflower/targets.py:124-134 | `one_or_none` fails with `MultipleResultsFound` exactly when several rows match |
| `TaskOutputs.UpsertInserts` | fireflower/targets.py:127-132 | upsert on a task with no row appends exactly the record, and a read then returns its value |
| `TaskOutputs.UpsertUpdates` | fireflower/targets.py:133-134 | upsert on a task with one row only sets that row's value (family and params kept), adds no row, and a read then returns the value |
| `TaskOutputs.UpsertIdempotent` | fireflower/targets.py:124-134 | a second upsert of the same value changes nothing |
| `TaskOutputs.UpsertKeepsOtherTasks` | fireflower/targets.py:124-134 | upsert leaves every other task's rows as they were |
| `TaskOutputs.RemoveClears` | fireflower/targets.py:120-122 | after remove, no row has the task id and read fails with `NoResultFound` |
| `TaskOutputs.RemoveKeepsOtherTasks` | fireflower/targets.py:120-122 | after remove, every other task keeps its rows in order |
| `TaskOutputs.WriteThenRead` | fireflower/targets.py:103-113 | write never replaces: a read after it succeeds exactly when the task had no row, and fails with `MultipleResultsFound` otherwise |
| `TaskOutputs.DBTaskOutputTarget.constructor` | fireflower/targets.py:80-84 | the session, task id, family and params are stored |
| `TaskOutputs.DBTaskOutputTarget.Create` | fireflower/targets.py:74-78 | the target's id, family and parameters are the task's id, family and string parameters |
| `TaskOutputs.DBTaskOutputTarget.Write` | fireflower/targets.py:103-109 | always appends one row (task id, family, params, value) |
| `TaskOutputs.DBTaskOutputTarget.Touch` | fireflower/targets.py:96-97 | is `write(None)` |
| `TaskOutputs.DBTaskOutputTarget.Read` | fireflower/targets.py:111-113 | agrees with `ReadRows` on the current table: the value of the task's only row, `NoResultFound` when it has none, `MultipleResultsFound` when it has several |
| `TaskOutputs.DBTaskOutputTarget.Exists` | fireflower/targets.py:115-118 | true exactly when some row has the task id |
| `TaskOutputs.DBTaskOutputTarget.Remove` | fireflower/targets.py:120-122 | the table becomes exactly the rows of other tasks, in order |
| `TaskOutputs.DBTaskOutputTarget.Upsert` | fireflower/targets.py:124-134 | the table becomes the upserted rows; when the lookup fails, the transaction rolls back and the table is unchanged |

## Left out

- CSV text itself is not modelled. `to_csv`, `pd.read_csv` and `csv.writer` turn tables and rows into
  characters and back inside pandas and the `csv` module. Writes record what they are handed, and
  reads take the parser's result as the `parse` parameter.
- Gzip framing is not modelled at byte level: the `GzipFile`/`TextIOWrapper` layers, their close
  order and the gzip trailer. Only the `gzipFramed` flag and the handle kind are kept.
- The remote object-store client (`super().open`, `super().exists`) is network I/O. It appears as
  the `Remote` handle and the `remoteExists` parameter.
- `os.path.isfile` is a filesystem query. It is the `isFile` parameter.
- Filesystem effects of `open` are not modelled: creating or truncating the local file, and errors
  from the filesystem. That includes the file being opened before a later `TypeError`.
- The SQLAlchemy session, query building and the database engine are left out. A duplicate-key
  failure on `write` depends on the table's schema, and `fireflower/models.py` is not part of this
  model, so `Write` always appends.
- The chunked generator of `read_csv_stream` is not modelled, because pandas does the chunking.
  Only its keyword arguments and stream are.
- `luigi.format.Nop` selection and the `format` argument are left out. They are luigi
  configuration.
- The `os.getenv` read is left out. The setting is a constructor parameter.
- Python default argument values (`mode='r'`, `compressed=True`) are left out, because Dafny has no
  default arguments. Callers pass every value.
- Positional `*args` of the module-level typed functions are left out.
- A caller's keyword that collides with a positional argument is left out: `filepath_or_buffer`
  against the handle in `read_csv(f, ...)` / `read_csv(g, ...)` (fireflower/targets.py:208, 210,
  252), and `path_or_buf` against the handle in `to_csv(f, ...)` / `to_csv(g, ...)`
  (fireflower/targets.py:176, 178, 236, 238). The source raises `TypeError` on these, and the model
  reads or writes instead. On an uncompressed typed target, a caller's `filepath_or_buffer` or
  `path_or_buf` therefore makes the source raise `TypeError` where the model's typed read or write
  succeeds.
- `TypedCsv.S3TypedCsvTarget.ReadTypedCsv` reports `filepath_or_buffer` when a caller's keywords
  repeat both it and `dtype` on the compressed branch. Which of the two CPython names depends on
  keyword order, and the model does not keep dict order.
- `TypedCsv.TransformColumns` returns the empty table for a frame with no columns. The source builds
  every transformed frame with `pd.DataFrame.from_items` (fireflower/targets.py:230, 254, 268,
  275), which rejects an empty sequence of columns with `ValueError`. So `Encode`, `Decode`,
  `RoundTripLaw` and the typed reads and writes succeed on a column-less frame where the source
  fails.
- Cell values are a small universe (`None`, integers, strings). The targets never inspect them.
- `TypedCsv.Encode` does not record the module-level `write_typed_csv` handing `*args` and
  `**kwargs` unchanged to `to_csv`.
- `tests/targets_tests.py` holds integration tests against mocked S3 and pandas, with no logic of
  its own.

## Findings

| source | as written | input that shows it | evidently intended | confidence | as-written member | corrected member |
|---|---|---|---|---|---|---|
| fireflower/targets.py:237-238 | the uncompressed branch of `S3TypedCSVTarget.write_typed_csv` writes `df` without applying any `output`, while `read_typed_csv` always applies `input` | uncompressed target, `types = {'a': d}` with `d.output = +1` and `d.input = -1` on integers, `df = {'a': [1]}`: the read returns `{'a': [0]}` | apply `output` on both branches, as the compressed branch and the module-level `write_typed_csv` do, so that a round-tripping descriptor round-trips | medium, not executed | `TypedCsv.S3TypedCsvTarget.WriteTypedCsvAsWritten` with `TypedCsv.AsWrittenUncompressedRoundTripFails` | `TypedCsv.S3TypedCsvTarget.WriteTypedCsv` with `TypedCsv.TypedTargetRoundTrip` |
