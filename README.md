# database-alchemy: verified model of the insert and query data mapping

The repository is a set of scripts around a three-table schema
(Analysis → Sample → Result). Two pieces of real data-mapping logic are
modelled here:

- **Insert** (`insert.dfy`, `database_alchemy/db_insert.py` `main`). A parsed
  metadata document has an `Analysis` block and a `Samples` array. It becomes
  one Analysis record and one Sample record per array element. Each record
  holds the allow-listed fields of its block. A missing field is skipped.
  - analysis allow-list: `analysis_name`, `date`, `department`, `analyst`
  - sample allow-list: `sample_name`, `sample_type`, `sample_description`
  Every sample is linked to the one analysis object. All records are added to
  one session, and the session commits once at the end. The records are
  classes with constant fields, so the sample-to-analysis link is object
  identity. The session is a class with a pending list and the list of batches
  made durable, one batch per successful commit.
- **Query** (`query.dfy`, `database_alchemy/db_query.py`).
  `get_results_by_analysis` and `get_results_by_sample` pick a filter from
  their argument:
  - a non-empty list gives a membership filter;
  - any other truthy value gives an equality filter;
  - a falsy value (`None`, `0`, `''`, `[]`) gives no filter.
  The filter is applied to the (Result, Sample) pairs of the join.
  `return_dataframe` turns each pair into an ordered row. The row starts with
  `sample_name` and `analysis_id`. The result's metrics are then merged in with
  ordered-dict update semantics.

`values.dfy` holds the shared `Option` and `Value` types. Metric values are
opaque (`Value.Opaque`).

Modelling choices:
- The database returns the join's rows in no promised order. The query
  functions therefore take `joined`, the inner join in an order the model
  leaves free. A filtered query keeps the relative order of `joined`.
  Because `joined` is free, this covers any order the database returns for
  the filtered query. Only the multiset statements, such as the
  `ResultsBy*FromJoin` lemmas and the multiplicity ensures of `ResultsBy*`,
  are promises about the program; positional statements relate the model's
  own values. `InnerJoin` is a reference definition of which pairs the join
  contains.
- A Python dict keeps insertion order, and that order decides the column
  order of a row. So metrics and rows are ordered association lists
  (`Query.Dict`). Lemmas about them assume unique keys, which every Python
  dict has.
- The metadata document is modelled as its two top-level fields. `None`
  stands for a field the document lacks, which the code reports as a
  `KeyError`.
- The NOT NULL constraints on `analysis_name` and `sample_name` come from
  `database_alchemy/create_db.py:14` and `:31`. The schema module the
  scripts actually import (`db_create`) is not part of this model. The
  model's `Session.Commit` checks those two constraints and writes nothing
  if either fails.

What the code does not do:
- It never validates a missing `analysis_name` itself. Only the
  database's NOT NULL constraint rejects it, at commit.
- It accepts a results CSV argument but never reads it. No Result rows are
  built on insert.
- No code infers metric types.

## Model

| member | source | states |
|---|---|---|
| Insert.ExtractFields | database_alchemy/db_insert.py:69-75 | the extracted data has exactly the allow-listed keys the block has, each with the block's value; it equals the allow-list restriction |
| Insert.RestrictIdempotent | database_alchemy/db_insert.py:80-86 | extracting again from already-extracted data yields the same data |
| Insert.RestrictExcludes | database_alchemy/db_insert.py:70-72 | a key outside the allow-list never appears in the record |
| Insert.RestrictSkipsMissing | database_alchemy/db_insert.py:71-75 | an allow-listed key the block lacks is skipped, and the result is the same as if that key were not on the list |
| Insert.BuildRestricts | database_alchemy/db_insert.py:69-89 | analysis data is the allow-listed part of the block; there is one sample datum per array element, in order, each the element's allow-listed part |
| Insert.AnalysisRecord.constructor | database_alchemy/db_insert.py:76 | the Analysis object holds exactly the extracted data |
| Insert.SampleRecord.constructor | database_alchemy/db_insert.py:87-88 | the Sample object holds its extracted data and the link to the given analysis |
| Insert.Session.constructor | database_alchemy/db_insert.py:64 | a new session has nothing pending and nothing committed |
| Insert.Session.Add | database_alchemy/db_insert.py:77 | `add` appends the object to the pending list and commits nothing |
| Insert.Session.Commit | database_alchemy/db_insert.py:108 | commit succeeds exactly when every pending record fills its NOT NULL name; it then makes the whole pending batch durable as one batch; otherwise nothing is written |
| Insert.RealizesNotNull | database_alchemy/db_insert.py:108 | a built batch passes the commit's NOT NULL check exactly when the analysis data and every sample datum carry a non-null name |
| Insert.PlanValidIffNamesPresent | database_alchemy/db_insert.py:69-87 | the built data satisfies NOT NULL exactly when the document's `Analysis` block and every `Samples` element carry a non-null name |
| Insert.InsertRecords | database_alchemy/db_insert.py:64-108 | missing `Analysis`: `KeyError` with nothing staged or committed; missing `Samples`: `KeyError` after only the analysis is staged, nothing committed; otherwise the analysis and then every sample, each linked to the one fresh analysis, are committed in exactly one batch, or rejected whole by the NOT NULL check |
| Query.SetItemKeys | database_alchemy/db_query.py:28 | setting a key on an ordered dict never moves an existing key, and a new key goes last |
| Query.SetItemGet | database_alchemy/db_query.py:28 | after `d[k] = v`, key `k` reads `v` and every other key reads as before |
| Query.SetItemUnique | database_alchemy/db_query.py:28 | on unique keys, `d[k] = v` keeps keys unique and changes only the entry of `k`, in place |
| Query.UpdateShape | database_alchemy/db_query.py:28 | `update` equals the old entries in their old order, values taken from the update where it has the key, followed by the update's new keys in its order |
| Query.UpdateKeys | database_alchemy/db_query.py:28 | the keys after `update` are exactly the old keys and the update's keys |
| Query.UpdateGet | database_alchemy/db_query.py:28 | after `update`, a key of the update reads the update's value; any other key keeps its old value |
| Query.UpdateUnique | database_alchemy/db_query.py:28 | `update` keeps keys unique |
| Query.UpdateKeepsPositions | database_alchemy/db_query.py:27-28 | `update` keeps the old keys as a prefix at their old positions |
| Query.UpdateIdempotent | database_alchemy/db_query.py:28 | merging the same entries twice equals merging them once |
| Query.RowShape | database_alchemy/db_query.py:26-28 | a row starts with `sample_name` then `analysis_id`; its keys are those two plus the metric keys, each once; every metric key maps to its metric value; a header value survives unless a metric of the same name replaces it in place; the rest of the row is the other metrics in their order |
| Query.RowReflattenNoop | database_alchemy/db_query.py:27-28 | merging a row's own metrics into it again changes nothing |
| Query.ReturnDataframe | database_alchemy/db_query.py:24-29 | exactly one row per input pair, in input order, each the pair's flattened row, starting with `sample_name` then `analysis_id` |
| Query.InnerJoinMembers | database_alchemy/db_query.py:50 | a pair is in the join exactly when its result is stored, its sample is stored, and the result references that sample |
| Query.ChooseFilter | database_alchemy/db_query.py:53-56 | a membership filter exactly for a non-empty list; an equality filter exactly for a truthy scalar; no filter exactly for a falsy argument |
| Query.Select | database_alchemy/db_query.py:54-56 | each pair whose sample passes the filter is kept as often as it occurs; every other pair is dropped |
| Query.ResultsByAnalysis | database_alchemy/db_query.py:50-56 | a non-empty list keeps exactly the pairs whose sample's `analysis_id` is listed; a non-zero id keeps the pairs with that id; a falsy argument returns the join unchanged; multiplicities are preserved |
| Query.ResultsBySample | database_alchemy/db_query.py:76-81 | the same three cases on `sample_name`; an empty list or empty string returns the join unchanged |
| Query.ResultsByAnalysisFromJoin | database_alchemy/db_query.py:50-56 | whatever order the join comes in, the analysis query returns a sub-multiset of the inner join; every returned result references its paired sample and passes the filter |
| Query.ResultsBySampleFromJoin | database_alchemy/db_query.py:76-81 | the same for the sample query |
| Query.GetResultsByAnalysis | database_alchemy/db_query.py:34-58 | one flattened row per selected pair, in order, each from a pair that passes the analysis filter |
| Query.GetResultsBySample | database_alchemy/db_query.py:61-83 | one flattened row per selected pair, in order, each from a pair that passes the sample filter |

## Left out

- Click commands, option defaults, the connection string, `create_engine`, `sessionmaker` and `Base.metadata.bind`. These are CLI and library plumbing.
- JSON parsing of the metadata file. The model takes the parsed document as input.
- Wrongly-shaped metadata, such as an `Analysis` that is not an object or `Samples` elements that are not objects. The model's types rule these out. The docstring of `main` fixes the shape.
- The `results_csv` argument. The code never reads it.
- SQL query building (`join`, `filter`, `in_`, `.all()`). Only its selection semantics is modelled. SQL NULL in `Sample.analysis_id` is not modelled, because the insert flow always sets the link.
- The debug `print` in `get_results_by_analysis`.
- The pandas `DataFrame` construction, which fills missing columns with NaN. The model stops at the list of ordered rows.
- `db_query.py` `main`. It runs hard-coded demo queries with date casts and `datetime.date.today()`.
- `create_db.py` and `insert_db.py`. They are a declarative schema and a hard-coded demo insert. Their fixed metric columns conflict with the `metrics` mapping the query code reads.
- The `String(20)` length limits and the `date` default of `func.now()`. These are database-side behaviours.
- Insert.InsertRecords: proves the analysis object fresh, but not that the sample objects are distinct from one another.
- Insert.InsertRecords: assumes the imported schema module's `Sample` accepts every field of the sample allow-list, so constructing a record never fails. The schema in `create_db.py` has no `sample_description` column, and with it `Sample(**sample_data)` would raise `TypeError` before any commit. The imported schema module is not part of this model.
- Query.InnerJoin: assumes a result references its sample by `sample_id`. The schema in `create_db.py` joins on `sample_name` instead. Either way the join pairs a result with the sample its foreign key names.
- Query.ReturnDataframe: assumes every stored `metrics` value is a JSON object. A NULL or non-object `metrics` makes `result.metrics.items()` raise `AttributeError` and fails the whole query. That error path is not modelled.
- Insert.Session.Commit: models a single NOT NULL check. Foreign-key checks, flush order and rollback after a failed commit are not modelled. A field value the database cannot store also makes the real commit fail and write nothing. Examples are a nested object or list (`Value.Opaque`) or a `date` string the `DateTime` column cannot parse. The model commits any non-null value.
