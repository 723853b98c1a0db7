/**
 * The ingestion Lambda `lambda/lambda_ingestion_function.py`: one GET of the
 * rate API for the configured range, one write of the response to the raw
 * bucket, and a result record echoing the parameters.
 *
 * The HTTP call and the object write are not performed here: their outcomes
 * are inputs, and the requests are returned as values. The response body is
 * the opaque type parameter `D`; its JSON serialisation is not modelled.
 */
module LambdaIngestion {
  import opened Wrappers
  import opened Text

  /** The environment the handler reads at import time. */
  datatype Config = Config(rawBucket: string, startDate: string, endDate: string,
                           baseCurrency: string, baseApiUrl: string)

  /** An HTTP GET: URL, query parameters in order, timeout in seconds. */
  datatype Request = Request(url: string, params: seq<(string, string)>, timeoutSeconds: nat)

  /** An object write with its content type and user metadata. */
  datatype PutObject<D> = PutObject(bucket: string, key: string, body: D, contentType: string,
                                    metadata: map<string, string>)

  /** The record lambda_handler returns on success. */
  datatype HandlerResult = HandlerResult(status: string, key: string, startDate: string,
                                         endDate: string, base: string)

  datatype IngestError = FetchFailed(reason: string) | SaveFailed

  /** What one invocation did: the request it sent, the write (if it got that far), and its outcome. */
  datatype Invocation<D> = Invocation(request: Request, put: Option<PutObject<D>>,
                                      result: Result<HandlerResult, IngestError>)

  const TimeoutSeconds: nat := 30
  const Source: string := "frankfurter"
  const RangeSeparator: string := ".."

  // ---------------------------------------------------------------------------
  // fetch_exchange_rates
  // ---------------------------------------------------------------------------

  /** The date-range path segment `{start}..{end}`. */
  function DateRange(start: string, end: string): string {
    start + RangeSeparator + end
  }

  /** Split a path segment at its first `..`: how the API reads the range back. */
  function SplitRange(s: string): Option<(string, string)>
  {
    if |s| < 2 then None
    else if s[..2] == RangeSeparator then Some(([], s[2..]))
    else
      match SplitRange(s[1..])
      case None => None
      case Some(parts) => Some(([s[0]] + parts.0, parts.1))
  }

  /** A start date without `.` is recovered exactly from the range segment, and so is the end date. */
  lemma {:induction false} SplitDateRange(start: string, end: string)
    requires '.' !in start
    ensures SplitRange(DateRange(start, end)) == Some((start, end))
    decreases |start|
  {
    var s := DateRange(start, end);
    if start == [] {
      assert s == ".." + end;
      assert s[..2] == RangeSeparator;
      assert s[2..] == end;
    } else {
      assert start == [start[0]] + start[1..];
      assert s == [start[0]] + DateRange(start[1..], end);
      assert s[..2][0] == start[0] != '.';
      assert s[1..] == DateRange(start[1..], end);
      SplitDateRange(start[1..], end);
    }
  }

  /**
   * The request fetch_exchange_rates sends: `{BASE_API_URL}/{START}..{END}`,
   * the single query parameter `base`, and a 30-second timeout.
   */
  function FetchRequest(cfg: Config): (r: Request)
    ensures StartsWith(r.url, cfg.baseApiUrl + "/")
    ensures '.' !in cfg.startDate ==>
              SplitRange(r.url[|cfg.baseApiUrl| + 1..]) == Some((cfg.startDate, cfg.endDate))
    ensures |r.params| == 1 && r.params[0] == ("base", cfg.baseCurrency)
    ensures r.timeoutSeconds == TimeoutSeconds
  {
    var url := cfg.baseApiUrl + "/" + DateRange(cfg.startDate, cfg.endDate);
    assert url[|cfg.baseApiUrl| + 1..] == DateRange(cfg.startDate, cfg.endDate);
    var r := Request(url, [("base", cfg.baseCurrency)], TimeoutSeconds);
    if '.' in cfg.startDate then r
    else SplitDateRange(cfg.startDate, cfg.endDate); r
  }

  // ---------------------------------------------------------------------------
  // save_to_s3
  // ---------------------------------------------------------------------------

  /** The raw object's name `exchange_rates_{BASE}_{START}_to_{END}`. */
  function RawName(cfg: Config): string {
    "exchange_rates_" + cfg.baseCurrency + "_" + cfg.startDate + "_to_" + cfg.endDate
  }

  /** The raw object key: the name with `.json`. */
  function RawKey(cfg: Config): string {
    RawName(cfg) + ".json"
  }

  /**
   * The raw key lies at the bucket root and ends in `.json`, so the transform
   * job's listing picks it up.
   */
  lemma RawKeyShape(cfg: Config)
    ensures StartsWith(RawKey(cfg), "exchange_rates_")
    ensures EndsWith(RawKey(cfg), ".json")
    ensures '/' !in cfg.baseCurrency && '/' !in cfg.startDate && '/' !in cfg.endDate ==> '/' !in RawKey(cfg)
  {
    var k := RawKey(cfg);
    assert k == "exchange_rates_" + (cfg.baseCurrency + "_" + cfg.startDate + "_to_" + cfg.endDate + ".json");
    assert k[|k| - 5..] == ".json";
    assert '/' !in "exchange_rates_" && '/' !in "_to_" && '/' !in ".json";
  }

  lemma CancelSuffix(a: string, b: string, t: string)
    requires a + t == b + t
    ensures a == b
  {
    assert a == (a + t)[..|a|];
    assert b == (b + t)[..|b|];
  }

  lemma CancelPrefix(p: string, a: string, b: string)
    requires p + a == p + b
    ensures a == b
  {
    assert a == (p + a)[|p|..];
    assert b == (p + b)[|p|..];
  }

  /** Cutting at the first `c`: text without `c` before it is determined. */
  lemma FirstSeparator(a1: string, r1: string, a2: string, r2: string, c: char)
    requires c !in a1 && c !in a2
    requires a1 + [c] + r1 == a2 + [c] + r2
    ensures a1 == a2 && r1 == r2
  {
    var s := a1 + [c] + r1;
    assert |a1| == |a2| by {
      assert s[|a1|] == c && s[|a2|] == c;
    }
    assert a1 == s[..|a1|] == a2;
    assert r1 == s[|a1| + 1..] == r2;
  }

  /**
   * Distinct ranges or base currencies are stored under distinct raw keys
   * (for a base and start date without `_`): one run never overwrites
   * another's object.
   */
  lemma RawKeyInjective(c1: Config, c2: Config)
    requires '_' !in c1.baseCurrency && '_' !in c2.baseCurrency
    requires '_' !in c1.startDate && '_' !in c2.startDate
    requires RawKey(c1) == RawKey(c2)
    ensures c1.baseCurrency == c2.baseCurrency && c1.startDate == c2.startDate && c1.endDate == c2.endDate
  {
    CancelSuffix(RawName(c1), RawName(c2), ".json");
    var u1 := c1.startDate + "_to_" + c1.endDate;
    var u2 := c2.startDate + "_to_" + c2.endDate;
    assert RawName(c1) == "exchange_rates_" + (c1.baseCurrency + ['_'] + u1);
    assert RawName(c2) == "exchange_rates_" + (c2.baseCurrency + ['_'] + u2);
    CancelPrefix("exchange_rates_", c1.baseCurrency + ['_'] + u1, c2.baseCurrency + ['_'] + u2);
    FirstSeparator(c1.baseCurrency, u1, c2.baseCurrency, u2, '_');
    assert u1 == c1.startDate + ['_'] + ("to_" + c1.endDate);
    assert u2 == c2.startDate + ['_'] + ("to_" + c2.endDate);
    FirstSeparator(c1.startDate, "to_" + c1.endDate, c2.startDate, "to_" + c2.endDate, '_');
    CancelPrefix("to_", c1.endDate, c2.endDate);
  }

  /** The object metadata. */
  function Metadata(cfg: Config): (m: map<string, string>)
    ensures m.Keys == {"start_date", "end_date", "base_currency", "source"}
    ensures m["start_date"] == cfg.startDate && m["end_date"] == cfg.endDate
    ensures m["base_currency"] == cfg.baseCurrency && m["source"] == Source
  {
    map["start_date" := cfg.startDate, "end_date" := cfg.endDate,
        "base_currency" := cfg.baseCurrency, "source" := Source]
  }

  /** The raw key can be rebuilt from the object's own metadata. */
  lemma MetadataDescribesKey(cfg: Config)
    ensures var m := Metadata(cfg);
            RawKey(cfg) == "exchange_rates_" + m["base_currency"] + "_" + m["start_date"] + "_to_" + m["end_date"] + ".json"
  {
  }

  /** The write save_to_s3 makes. */
  function SaveRequest<D>(cfg: Config, data: D): PutObject<D> {
    PutObject(cfg.rawBucket, RawKey(cfg), data, "application/json", Metadata(cfg))
  }

  // ---------------------------------------------------------------------------
  // lambda_handler
  // ---------------------------------------------------------------------------

  /**
   * lambda_handler, given what the API answered (the parsed body, or the
   * failure raise_for_status or the network raised) and whether the write
   * succeeded.
   */
  function Handler<D>(cfg: Config, response: Result<D, string>, saved: bool): (inv: Invocation<D>)
    ensures inv.request == FetchRequest(cfg)
    ensures inv.put.Some? <==> response.Ok?
    ensures inv.put.Some? ==> inv.put.value == SaveRequest(cfg, response.value)
    ensures inv.result.Ok? <==> response.Ok? && saved
    ensures inv.result.Ok? ==>
              inv.result.value == HandlerResult("ok", inv.put.value.key, cfg.startDate, cfg.endDate, cfg.baseCurrency)
    ensures response.Err? ==> inv.result == Err(FetchFailed(response.error))
    ensures response.Ok? && !saved ==> inv.result == Err(SaveFailed)
  {
    var request := FetchRequest(cfg);
    match response
    case Err(reason) => Invocation(request, None, Err(FetchFailed(reason)))
    case Ok(data) =>
      var put := SaveRequest(cfg, data);
      if !saved then Invocation(request, Some(put), Err(SaveFailed))
      else Invocation(request, Some(put),
                      Ok(HandlerResult("ok", put.key, cfg.startDate, cfg.endDate, cfg.baseCurrency)))
  }

  /** A successful invocation reports the key it wrote, and that key is the configured raw key. */
  lemma HandlerReportsWrittenKey<D>(cfg: Config, data: D)
    ensures var inv := Handler(cfg, Ok(data), true);
            inv.result.Ok? && inv.put.Some? &&
            inv.result.value.key == inv.put.value.key == RawKey(cfg) &&
            inv.put.value.metadata["source"] == Source
  {
  }
}
