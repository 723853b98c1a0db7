/**
 * The validation Lambda `lambda/lambda_validation_function.py`: given a query
 * execution id, it fetches the query's results, counts the rows after the
 * header and publishes an `EmptyQueryResults` metric.
 *
 * The Athena and CloudWatch calls are not made here: the Athena response (or
 * the failure it raised) and whether the metric write succeeded are inputs,
 * and the requests are returned as values.
 */
module LambdaValidation {
  import opened Wrappers

  /** A JSON value as it arrives in the Lambda event. */
  datatype Value =
    | Null
    | Bool(b: bool)
    | Number(n: int)
    | Str(s: string)
    | List(items: seq<Value>)
    | Object(fields: seq<(string, Value)>)

  /** Python truthiness of a JSON value. */
  predicate Truthy(v: Value) {
    match v
    case Null => false
    case Bool(b) => b
    case Number(n) => n != 0
    case Str(s) => s != []
    case List(items) => items != []
    case Object(fields) => fields != []
  }

  datatype Event = Event(fields: map<string, Value>)

  /** One row of an Athena result set: its cells, a missing cell value being None. */
  datatype ResultRow = ResultRow(data: seq<Option<string>>)

  datatype ResultSet = ResultSet(rows: Option<seq<ResultRow>>)

  /** A get_query_results response; `ResultSet` or its `Rows` may be absent. */
  datatype QueryResults = QueryResults(resultSet: Option<ResultSet>)

  datatype MetricDatum = MetricDatum(metricName: string, value: int, unit: string)

  datatype MetricPut = MetricPut(namespace: string, data: seq<MetricDatum>)

  datatype ValidationError = MissingQueryExecutionId | AthenaFailed(reason: string) | MetricFailed

  /** The record the handler returns. */
  datatype ValidationResult = ValidationResult(rows: int)

  /** What one invocation did: the query id it asked Athena about, the metric it published, its outcome. */
  datatype Validation = Validation(athenaQuery: Option<Value>, metric: Option<MetricPut>,
                                   result: Result<ValidationResult, ValidationError>)

  const Namespace: string := "AWS/Athena"
  const MetricName: string := "EmptyQueryResults"

  /** `response.get("ResultSet", {}).get("Rows", [])`. */
  function RowsOf(response: QueryResults): seq<ResultRow> {
    match response.resultSet
    case None => []
    case Some(rs) =>
      match rs.rows
      case None => []
      case Some(rows) => rows
  }

  /**
   * The row count with the header subtracted and no clamping: a response
   * without rows counts -1.
   */
  function RowCount(response: QueryResults): (rows: int)
    ensures rows >= -1
    ensures rows + 1 == |RowsOf(response)|
    ensures response.resultSet.None? ==> rows == -1
  {
    |RowsOf(response)| - 1
  }

  /** The metric value: 1 exactly when no data row is left after the header. */
  function EmptyMetricValue(rows: int): (v: int)
    ensures v == 0 || v == 1
    ensures v == 1 <==> rows == 0
  {
    if rows == 0 then 1 else 0
  }

  function MetricFor(rows: int): MetricPut {
    MetricPut(Namespace, [MetricDatum(MetricName, EmptyMetricValue(rows), "Count")])
  }

  /** The id the handler reads: present and truthy, or the invocation fails. */
  function QueryExecutionId(event: Event): (r: Option<Value>)
    ensures r.Some? <==> "QueryExecutionId" in event.fields && Truthy(event.fields["QueryExecutionId"])
    ensures r.Some? ==> r.value == event.fields["QueryExecutionId"]
  {
    if "QueryExecutionId" in event.fields && Truthy(event.fields["QueryExecutionId"])
    then Some(event.fields["QueryExecutionId"])
    else None
  }

  /**
   * lambda_handler: check the id, fetch the results, publish the metric,
   * return the row count. A missing or falsy id fails before any call.
   */
  function Handler(event: Event, athena: Result<QueryResults, string>, published: bool): (v: Validation)
    ensures QueryExecutionId(event).None? ==> v == Validation(None, None, Err(MissingQueryExecutionId))
    ensures QueryExecutionId(event).Some? ==> v.athenaQuery == QueryExecutionId(event)
    ensures v.metric.Some? <==> QueryExecutionId(event).Some? && athena.Ok?
    ensures v.metric.Some? ==> v.metric.value == MetricFor(RowCount(athena.value))
    ensures v.result.Ok? <==> QueryExecutionId(event).Some? && athena.Ok? && published
    ensures v.result.Ok? ==> v.result.value.rows == RowCount(athena.value)
    ensures QueryExecutionId(event).Some? && athena.Err? ==> v.result == Err(AthenaFailed(athena.error))
    ensures QueryExecutionId(event).Some? && athena.Ok? && !published ==> v.result == Err(MetricFailed)
  {
    match QueryExecutionId(event)
    case None => Validation(None, None, Err(MissingQueryExecutionId))
    case Some(id) =>
      match athena
      case Err(reason) => Validation(Some(id), None, Err(AthenaFailed(reason)))
      case Ok(response) =>
        var rows := RowCount(response);
        var metric := MetricFor(rows);
        if !published then Validation(Some(id), Some(metric), Err(MetricFailed))
        else Validation(Some(id), Some(metric), Ok(ValidationResult(rows)))
  }

  /** Header only: 0 rows and the empty metric 1; header and three rows: 3 and 0; no rows at all: -1 and 0. */
  lemma RowCountExamples(header: ResultRow, r1: ResultRow, r2: ResultRow, r3: ResultRow)
    ensures var headerOnly := QueryResults(Some(ResultSet(Some([header]))));
            RowCount(headerOnly) == 0 && EmptyMetricValue(RowCount(headerOnly)) == 1
    ensures var four := QueryResults(Some(ResultSet(Some([header, r1, r2, r3]))));
            RowCount(four) == 3 && EmptyMetricValue(RowCount(four)) == 0
    ensures RowCount(QueryResults(None)) == -1 && EmptyMetricValue(RowCount(QueryResults(None))) == 0
    ensures RowCount(QueryResults(Some(ResultSet(None)))) == -1
  {
  }

  /**
   * A response with no rows at all (not even a header) counts -1, and its
   * metric reports "not empty": the metric flags only a header-only result.
   */
  lemma NoRowsIsNotFlagged(event: Event, response: QueryResults)
    requires QueryExecutionId(event).Some?
    requires RowsOf(response) == []
    ensures var v := Handler(event, Ok(response), true);
            v.result == Ok(ValidationResult(-1)) && v.metric.value.data[0].value == 0
  {
  }
}
