# fxlake exchange-rate pipeline, modelled in Dafny

The pipeline has three stateless units. They talk to each other only through the object store.

- **Ingestion Lambda** (`lambda/lambda_ingestion_function.py`). It sends one GET to the rate API, `{BASE_API_URL}/{START}..{END}?base={BASE}`, with a 30-second timeout. It stores the JSON response in the raw bucket under `exchange_rates_{BASE}_{START}_to_{END}.json`, with four metadata entries. Its result record echoes the key and the parameters.
- **Glue transform job** (`glue/glue_transform.py`). It lower-cases and checks `OUTPUT_FORMAT`. It lists every `.json` key of the raw bucket across all listing pages. Each document `{base, rates: {date: {currency: rate}}}` becomes one row per (date, currency) pair. The rows go to `exchange_rates/<file name>.<csv|parquet>` in the processed bucket, with the format's content type. The first object that fails aborts the run.
- **Validation Lambda** (`lambda/lambda_validation_function.py`). It rejects an event without a truthy `QueryExecutionId`. It fetches the query results and subtracts the header row from the row count. It publishes `EmptyQueryResults` (1 exactly when the count is 0) to the `AWS/Athena` namespace and returns `{"rows": count}`.

The model has one module per unit, plus `Text` (Python's `str.replace`, `split(sep)[-1]` and `lower`), `Wrappers` (`Option`, `Result`) and `Pipeline`, which holds lemmas that join the units.

The project's types:

- Rates are copied but never inspected, so they are an opaque type parameter `R`.
- The ingested response body is an opaque parameter `D`.
- A Python dict is an association sequence in insertion order, which is the order `.items()` yields.

Cloud calls are not made. Each handler takes their outcomes as inputs: the API response or its failure, the readable objects, the listing pages, and whether a write succeeded. It returns the requests it would issue as values.

The transform's loops are imperative methods proved against recursive specification functions:

- `FlattenRates`, the nested loops of `process_key`;
- `ListJsonKeys`, the pagination loop;
- `ProcessKeys`, the loop of `main`, which `RunJob` calls after the format check and the listing.

The properties of the rows and keys are lemmas about those functions.

Behaviour worth knowing:

- The validation Lambda returns `{"rows": len(Rows) - 1}` with no clamping. A response with no rows at all gives -1, and the metric for it is 0.
- The validation Lambda fetches the results for the id it is given. A query that has not succeeded shows up as a failing Athena call.
- The transform job names each output file after the raw key's last path segment, with every `.json` replaced by the format's extension. For keys the ingestion Lambda writes, `Pipeline.ProcessedKeyOfIngestedObject` shows that this name depends only on the configured base and date range.

## Model

| member | source | states |
|---|---|---|
| Text.Replace | glue/glue_transform.py:93 | definition of Python's `str.replace` for a non-empty pattern: the leftmost non-overlapping occurrences, scanning from the left, are replaced; its properties are the `Replace*` rows |
| Text.Lower | glue/glue_transform.py:35 | the result has the input's length, and each character is the ASCII lower-case of the input's character |
| Text.ReplaceSplit | glue/glue_transform.py:93 | for a pattern whose first character does not recur (such as `.json`), `replace` on `X + pat + Y` is `replace` on X, then the replacement, then `replace` on Y: every occurrence is replaced |
| Text.ReplaceTrailing | glue/glue_transform.py:93 | for a pattern whose first character does not recur, an occurrence at the end of the text is always replaced, whatever comes before it |
| Text.ReplaceAbsent | glue/glue_transform.py:93 | `replace` leaves text without the pattern unchanged |
| Text.ReplaceChars | glue/glue_transform.py:93 | `replace` introduces no character that is absent from both the text and the replacement |
| Text.SegmentReplaceTrailing | glue/glue_transform.py:93 | when a key ends in the pattern and the separator is not in it, replacing in the key's last segment leaves the replacement at the end |
| Text.SegmentReplaceName | glue/glue_transform.py:93 | the last segment of `dir/X<pat>`, where X contains neither the separator nor the pattern, becomes `X<rep>` after replacement |
| Text.SegmentReplaceSplit | glue/glue_transform.py:93 | in the last segment of `dir/X<pat>Y`, with the separator in none of X, Y and the pattern, X and Y are replaced independently around the occurrence |
| Text.LowerEqualsWord | glue/glue_transform.py:35-37 | lower-casing yields a lower-case word exactly when the text spells that word in any mixture of cases |
| Text.LastSegment | glue/glue_transform.py:93 | `split(sep)[-1]` is a suffix of the key without `sep`, and it is preceded by `sep` unless it is the whole key |
| Text.LastSegmentOfPath | glue/glue_transform.py:93 | the last segment of `dir/name` (or of a bare `name`) is `name` |
| GlueTransform.ParseOutputFormat | glue/glue_transform.py:35-38 | accepted exactly when the lower-cased value is `csv` or `parquet`, and the format named is that value; any other value is rejected with the start-up error, which carries no value |
| GlueTransform.ParseOutputFormatIgnoresCase | glue/glue_transform.py:35-38 | the value selects csv (parquet) exactly when it spells `csv` (`parquet`) in any mixture of upper- and lower-case letters |
| GlueTransform.ParseOutputFormatExamples | glue/glue_transform.py:35-38 | `CSV` gives csv, `Parquet` gives parquet, `xml` is rejected |
| GlueTransform.RatesOf | glue/glue_transform.py:74 | definition of `payload.get("rates", {})`: the document's rates, or no dates when the field is absent |
| GlueTransform.Flattened | glue/glue_transform.py:77-87 | definition of the rows of the nested loops: the rows of each date, in currency order, one date after the other; its properties are the `Flattened*` rows |
| GlueTransform.FlattenRates | glue/glue_transform.py:77-87 | the nested loops build the date-major flattening: one row per (date, currency) entry, every row carrying the document's base |
| GlueTransform.FlattenedCount | glue/glue_transform.py:77-87 | there are as many rows as currencies summed over the dates |
| GlueTransform.FlattenedAppend | glue/glue_transform.py:78-87 | flattening two lists of dates one after the other concatenates their rows |
| GlueTransform.FlattenedBlocks | glue/glue_transform.py:78-87 | the rows of date i are one contiguous block, in currency order, between the rows of the earlier and the later dates |
| GlueTransform.FlattenedAt | glue/glue_transform.py:80-86 | currency j of date i is row number Offset(i) + j, with that date, currency and rate |
| GlueTransform.FlattenedMembers | glue/glue_transform.py:77-87 | a row is in the output if and only if it is the row of some (date, currency) entry |
| GlueTransform.FlattenedLookup | glue/glue_transform.py:73-87 | for a document with distinct dict keys, a row is in the output if and only if it carries the base and `rates[date][currency]` is its rate |
| GlueTransform.FlattenedOrderInvariant | glue/glue_transform.py:78-79 | two documents holding the same nested map, in any key order, give the same set of rows |
| GlueTransform.FlattenedDistinct | glue/glue_transform.py:78-87 | for distinct dict keys, no two rows share a (date, currency) pair |
| GlueTransform.OutFileName | glue/glue_transform.py:93 | definition of the file name: the last `/`-segment of the key with every `.json` replaced by the format's extension |
| GlueTransform.OutKey | glue/glue_transform.py:92-94 | definition of the output key: `exchange_rates/` followed by the file name; its properties are the `OutKey*` rows |
| GlueTransform.ContentType | glue/glue_transform.py:97-115 | definition of the content type: `application/x-parquet` for parquet, `text/csv` otherwise |
| GlueTransform.OutKeyShape | glue/glue_transform.py:92-94 | every output key starts with `exchange_rates/`, and that is its only `/` |
| GlueTransform.OutKeyExtension | glue/glue_transform.py:93-94 | a raw key ending in `.json` gives an output key ending in `.csv` or `.parquet`, as the format says |
| GlueTransform.OutKeyOfName | glue/glue_transform.py:92-94 | a raw key `dir/X.json`, with no `/` or `.json` inside X, is written to `exchange_rates/X.<format>` |
| GlueTransform.OutKeyReplacesEach | glue/glue_transform.py:92-94 | for a key `dir/X.jsonY`, the output key is `exchange_rates/` followed by X rewritten, the extension, and Y rewritten: a `.json` inside the name is replaced too, as in `raw/x.json.bak` to `exchange_rates/x.parquet.bak` |
| GlueTransform.KeyCalls | glue/glue_transform.py:69-115 | definition of one key's requests: its read, and, when it can be read and parsed, the write that follows |
| GlueTransform.KeyPut | glue/glue_transform.py:89-115 | definition of that write: the flattened rows, to the processed bucket, under the output key, with the format's content type |
| GlueTransform.ProcessKey | glue/glue_transform.py:65-118 | reads the key from the raw bucket. An unreadable key fails with that key. Otherwise it writes the flattened rows to the derived output key with the format's content type and returns that key. An empty `rates` gives an empty body |
| GlueTransform.PageKeys | glue/glue_transform.py:54-56 | definition of one page's keys: those of its Contents in order, none when Contents is absent |
| GlueTransform.ListedKeys | glue/glue_transform.py:53-56 | definition of all listed keys: the pages' keys, one page after the other |
| GlueTransform.JsonOnly | glue/glue_transform.py:56 | a key is kept if and only if it was listed and ends in `.json` |
| GlueTransform.JsonOnlyAppend | glue/glue_transform.py:53-57 | filtering page by page is the same as filtering the whole listing |
| GlueTransform.ListJsonKeys | glue/glue_transform.py:48-58 | the pagination loop yields the `.json` keys of every page that has Contents, in listing order |
| GlueTransform.RunKeys | glue/glue_transform.py:135-136 | definition of the loop of `main`: each key's step in order, stopping after the first key that cannot be read; its properties are the `RunKeys*` rows |
| GlueTransform.RunKeysComplete | glue/glue_transform.py:135-136 | when every key is readable, each key's requests are issued in order and nothing fails |
| GlueTransform.RunKeysStops | glue/glue_transform.py:131-143 | the first unreadable key aborts the run: the earlier keys run completely, then its read, then nothing more |
| GlueTransform.RunKeysPrefix | glue/glue_transform.py:135-136 | once a prefix of the keys has failed, later keys add no requests |
| GlueTransform.AllStepsPairs | glue/glue_transform.py:135-136 | when each key makes two requests, key t's requests are at positions 2t and 2t+1 |
| GlueTransform.ProcessAllKeys | glue/glue_transform.py:132-136 | when every listed key is readable, request 2t reads key t and request 2t+1 writes its rows to its output key |
| GlueTransform.RunKeysNext | glue/glue_transform.py:135-136 | while no key has failed, one more key appends its requests, and the run fails exactly when that key is unreadable |
| GlueTransform.ProcessKeys | glue/glue_transform.py:135-136 | the loop over the keys issues the requests of the reference run, in order, up to and including the first unreadable key, and reports that key as the error |
| GlueTransform.RunJob | glue/glue_transform.py:129-143 | an invalid format fails before any request. Otherwise the job lists the raw bucket, then runs the `.json` keys in listing order until the first failure, and reports that key as the error |
| LambdaIngestion.DateRange | lambda/lambda_ingestion_function.py:22 | definition of the range segment `{START}..{END}` |
| LambdaIngestion.SplitDateRange | lambda/lambda_ingestion_function.py:22 | for a start date without `.`, the range segment `{start}..{end}` splits back into the start and end dates |
| LambdaIngestion.FetchRequest | lambda/lambda_ingestion_function.py:22-26 | the URL is the API base, `/`, then a range segment that splits back into the configured dates. The only parameter is `base`, and the timeout is 30 seconds |
| LambdaIngestion.RawName | lambda/lambda_ingestion_function.py:37 | definition of the name `exchange_rates_{BASE}_{START}_to_{END}` |
| LambdaIngestion.RawKey | lambda/lambda_ingestion_function.py:37 | definition of the raw key: the name followed by `.json` |
| LambdaIngestion.RawKeyShape | lambda/lambda_ingestion_function.py:37 | the raw key starts with `exchange_rates_` and ends with `.json`; when the parts have no `/`, it has no `/` either |
| LambdaIngestion.RawKeyInjective | lambda/lambda_ingestion_function.py:37 | if base and start date have no `_`, equal raw keys mean equal base, start and end dates |
| LambdaIngestion.Metadata | lambda/lambda_ingestion_function.py:45-50 | the metadata has exactly the keys start_date, end_date, base_currency and source, holding the configured values and `frankfurter` |
| LambdaIngestion.MetadataDescribesKey | lambda/lambda_ingestion_function.py:37-50 | the raw key can be rebuilt from the object's own metadata |
| LambdaIngestion.SaveRequest | lambda/lambda_ingestion_function.py:40-51 | definition of the write of `save_to_s3`: the raw bucket, the raw key, the body, `application/json` and the metadata |
| LambdaIngestion.Handler | lambda/lambda_ingestion_function.py:59-75 | always sends the fetch request. A write is made if and only if the fetch succeeded, and it has the raw key, JSON content type and metadata. The invocation succeeds if and only if fetch and write succeed, returning status `ok`, the written key and the parameters. A fetch failure or a write failure is reported as such |
| LambdaIngestion.HandlerReportsWrittenKey | lambda/lambda_ingestion_function.py:62-71 | a successful invocation reports the key it wrote, which is the raw key, tagged with source `frankfurter` |
| LambdaValidation.Truthy | lambda/lambda_validation_function.py:9 | definition of Python truthiness for a JSON value: null, false, 0 and the empty string, list and object are falsy |
| LambdaValidation.QueryExecutionId | lambda/lambda_validation_function.py:8-10 | an id is used if and only if the event has a truthy `QueryExecutionId`, and it is that value |
| LambdaValidation.RowsOf | lambda/lambda_validation_function.py:14 | definition of `response.get("ResultSet", {}).get("Rows", [])`: the rows, or none when either field is absent |
| LambdaValidation.RowCount | lambda/lambda_validation_function.py:14 | the count is one less than the number of rows, no less than -1, and -1 when the ResultSet is missing |
| LambdaValidation.EmptyMetricValue | lambda/lambda_validation_function.py:22 | the metric is 0 or 1, and 1 if and only if the count is 0 |
| LambdaValidation.MetricFor | lambda/lambda_validation_function.py:17-26 | definition of the metric write: namespace `AWS/Athena`, one datum `EmptyQueryResults` with the empty-result value and unit `Count` |
| LambdaValidation.Handler | lambda/lambda_validation_function.py:7-29 | a missing or falsy id fails before any call. Athena is queried with the id. The metric is published if and only if the query succeeded, with the value for the row count. The result is `{rows}` if and only if both calls succeeded; otherwise it is the Athena failure or the metric failure |
| LambdaValidation.RowCountExamples | lambda/lambda_validation_function.py:14-22 | header only gives 0 rows and metric 1; header and three rows give 3 and 0; no rows give -1 and 0 |
| LambdaValidation.NoRowsIsNotFlagged | lambda/lambda_validation_function.py:14-29 | a response with no rows, not even a header, returns -1 and publishes 0 |
| Pipeline.NoDotNoJson | glue/glue_transform.py:93 | helper for `ProcessedKeyOfIngestedObject`: text without `.` contains no `.json` |
| Pipeline.RawKeyIsListed | glue/glue_transform.py:56 | every raw key the ingestion Lambda writes passes the transform job's `.json` filter |
| Pipeline.ProcessedKeyOfIngestedObject | glue/glue_transform.py:92-94 | for a base and dates without `/` or `.`, the processed key of the ingested object is `exchange_rates/exchange_rates_{BASE}_{START}_to_{END}.<format>`, so a rerun for the same range overwrites it |

## Left out

- The cloud calls themselves are not modelled: boto3 object-store, Athena and CloudWatch calls, and the `requests` HTTP call. Their outcomes are inputs, and the requests are values.
- JSON parsing and serialisation (`json.loads`, `json.dumps`, `resp.json()`) are not modelled. A raw object the transform job can read is given as an already parsed document, and the ingested body is opaque.
- The pandas DataFrame and the CSV or Parquet encoding are not modelled. A write's body is the row sequence it would encode.
- Rates are floats. They are only copied, so the model treats them as opaque and does not model floating point.
- Logging and the `print` in the validation Lambda have no effect on results and are left out.
- Reading job arguments (`getResolvedOptions`) and environment variables is not modelled. The values are parameters.
- The transform job's `put_object` failure is not modelled: every write of a readable object succeeds. A failing read or parse is modelled, as `ObjectFailed`.
- A failure while listing the raw bucket is not modelled.
- GlueTransform.Payload: the document's `base` is a string or absent. The source copies whatever JSON value `base` holds into every row, and a number, list or object there is not representable in the model.
- A document whose `rates` or per-date value is not a dict is not modelled. In the source that raises while iterating; the model's document type always has the nested shape.
- Text.Lower: covers ASCII A–Z only. Python's `lower` maps only two non-ASCII characters to ASCII letters: U+212A to `k` and U+0130 to `i` plus a combining dot. Neither letter occurs in `csv` or `parquet`, so the format check accepts or rejects the same values.
- LambdaValidation.Value: event values are JSON with integer numbers only. A float `0.0` id, which is falsy, is not modelled.
- Text.Replace: requires a non-empty pattern. The only pattern used is `.json`.
- LambdaIngestion.FetchRequest: states the range round trip only for a start date without `.`. With a `.` in the start date, the first `..` of the segment is ambiguous.
- The diagram generators and the infrastructure code of the repository are not part of this model.
